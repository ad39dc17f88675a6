/** The allocator for thread stacks: a pool of memory cut into blocks, each with a header,
    and a free list threaded through the headers in address order. */
module Blocks {

  /** sizeof(struct __stmp__): a huge pointer and an unsigned int. */
  const HLEN: nat := 6
  const MIN_BLOCK: nat := HLEN * 4
  /** One more than the largest unsigned int of the target. */
  const WORD: nat := 0x1_0000

  /** A block: the address of its header, the length of its data, whether it is free. */
  datatype Block = Block(addr: nat, len: nat, free: bool) {
    function End(): nat { addr + HLEN + len }
  }

  ghost predicate Abuts(bs: seq<Block>, i: nat)
    requires 0 < i < |bs|
  {
    bs[i].addr == bs[i - 1].End()
  }

  ghost predicate Parted(bs: seq<Block>, i: nat)
    requires 0 < i < |bs|
  {
    !(bs[i - 1].free && bs[i].free)
  }

  /** The blocks lie end to end from `base` to `end`. */
  ghost predicate Tiles(bs: seq<Block>, base: nat, end: nat) {
    && |bs| > 0
    && bs[0].addr == base
    && bs[|bs| - 1].End() == end
    && forall i :: 0 < i < |bs| ==> Abuts(bs, i)
  }

  ghost predicate NoFreeNeighbours(bs: seq<Block>) {
    forall i :: 0 < i < |bs| ==> Parted(bs, i)
  }

  /** The position of the first free block at or after `i`, or the number of blocks. */
  function NextFree(bs: seq<Block>, i: nat): (r: nat)
    requires i <= |bs|
    ensures i <= r <= |bs|
    decreases |bs| - i
  {
    if i == |bs| || bs[i].free then i else NextFree(bs, i + 1)
  }

  /** Nothing before it is free, and it is. */
  lemma {:induction false} NextFreeFirst(bs: seq<Block>, i: nat)
    requires i <= |bs|
    ensures var r := NextFree(bs, i);
      && (r < |bs| ==> bs[r].free)
      && forall j :: i <= j < r ==> !bs[j].free
    decreases |bs| - i
  {
    if i < |bs| && !bs[i].free { NextFreeFirst(bs, i + 1); }
  }

  lemma {:induction false} NextFreeIs(bs: seq<Block>, i: nat, r: nat)
    requires i <= r <= |bs| && (r < |bs| ==> bs[r].free)
    requires forall j :: i <= j < r ==> !bs[j].free
    ensures NextFree(bs, i) == r
    decreases r - i
  {
    if i < r { NextFreeIs(bs, i + 1, r); }
  }

  /** A pointer to block `i`; NULL past the last block. */
  function Ptr(bs: seq<Block>, i: nat): nat
    requires i <= |bs|
  {
    if i == |bs| then 0 else bs[i].addr
  }

  /** `(size + 1) & ~1`, computed in an unsigned int. */
  function RoundUp(size: nat): (r: nat)
    requires size <= 0xFFFF
    ensures r % 2 == 0 && r < WORD
    ensures size < 0xFFFF ==> size <= r <= size + 1
    ensures size == 0xFFFF ==> r == 0
  {
    var s := (size + 1) % WORD;
    s - s % 2
  }

  /** The first free block that is large enough, or the number of blocks. */
  function FirstFit(bs: seq<Block>, size: nat, i: nat := 0): (r: nat)
    requires i <= |bs|
    ensures i <= r <= |bs|
    ensures forall j :: i <= j < r ==> !(bs[j].free && bs[j].len >= size)
    ensures r < |bs| ==> bs[r].free && bs[r].len >= size
    decreases |bs| - i
  {
    if i == |bs| || (bs[i].free && bs[i].len >= size) then i else FirstFit(bs, size, i + 1)
  }

  /** Block `i` is cut into two. */
  function Cut(bs: seq<Block>, i: nat, lo: Block, hi: Block): seq<Block>
    requires i < |bs|
  {
    bs[..i] + [lo, hi] + bs[i + 1..]
  }

  /** Block `i` is handed out whole when too little would remain, and otherwise split: the
      upper part is handed out. */
  function Carve(bs: seq<Block>, i: nat, size: nat): seq<Block>
    requires i < |bs| && bs[i].len >= size
  {
    var b := bs[i];
    if b.len - size < MIN_BLOCK then bs[i := b.(free := false)]
    else
      var k := b.len - size - HLEN;
      Cut(bs, i, b.(len := k), Block(b.addr + HLEN + k, size, false))
  }

  /** The position of the block that `Carve` hands out. */
  function Handed(bs: seq<Block>, i: nat, size: nat): nat
    requires i < |bs| && bs[i].len >= size
  {
    if bs[i].len - size < MIN_BLOCK then i else i + 1
  }

  /** Of block `i`, `size` bytes are handed out at `r`.  If at least 24 bytes would be left over,
      exactly that many are, from the upper end of the block, and the rest stays free; else the
      whole block is.  No other block changes. */
  ghost predicate HandedOut(bs: seq<Block>, after: seq<Block>, i: nat, size: nat, r: nat)
    requires i < |bs|
  {
    var b := bs[i];
    if b.len - size >= 24 then
      var rest, got := Block(b.addr, b.len - size - HLEN, true), Block(b.addr + b.len - size, size, false);
      && after == bs[..i] + [rest, got] + bs[i + 1..]
      && rest.End() == got.addr && got.End() == b.End() && r == got.addr + HLEN
    else after == bs[i := b.(free := false)] && r == b.addr + HLEN
  }

  lemma CarveHandsOut(bs: seq<Block>, i: nat, size: nat)
    requires i < |bs| && bs[i].free && bs[i].len >= size
    ensures HandedOut(bs, Carve(bs, i, size), i, size, Carve(bs, i, size)[Handed(bs, i, size)].addr + HLEN)
  {
    if bs[i].len - size >= MIN_BLOCK {
      var k := bs[i].len - size - HLEN;
      assert Carve(bs, i, size)[i + 1] == Block(bs[i].addr + HLEN + k, size, false);
    }
  }

  function Merge(bs: seq<Block>, i: nat): seq<Block>
    requires i + 1 < |bs|
  {
    bs[..i] + [bs[i].(len := bs[i].len + HLEN + bs[i + 1].len)] + bs[i + 2..]
  }

  /** Block `j` becomes free and is merged with a free block after it and one before it. */
  function MergeUp(bs: seq<Block>, j: nat): (r: seq<Block>)
    requires j < |bs|
    ensures j < |r| <= |bs|
  {
    var b := bs[j := bs[j].(free := true)];
    if j + 1 < |bs| && bs[j + 1].free then Merge(b, j) else b
  }

  function Release(bs: seq<Block>, j: nat): seq<Block>
    requires j < |bs|
  {
    var b := MergeUp(bs, j);
    if j > 0 && bs[j - 1].free then Merge(b, j - 1) else b
  }

  lemma MergeUpAt(bs: seq<Block>, j: nat)
    requires j < |bs|
    ensures var up := MergeUp(bs, j);
      up[j].free && up[j].addr == bs[j].addr && forall k :: 0 <= k < j ==> up[k] == bs[k]
  {
  }

  // ----- tiling

  lemma CarveTiles(bs: seq<Block>, i: nat, size: nat, base: nat, end: nat)
    requires Tiles(bs, base, end) && i < |bs| && bs[i].len >= size
    ensures Tiles(Carve(bs, i, size), base, end)
  {
    var c := Carve(bs, i, size);
    var d := |c| - |bs|;
    forall j | 0 < j < |c| ensures Abuts(c, j) {
      if j <= i { assert Abuts(bs, j); } else if j > i + d { assert Abuts(bs, j - d); }
    }
  }

  lemma CarveSeparates(bs: seq<Block>, i: nat, size: nat)
    requires NoFreeNeighbours(bs) && i < |bs| && bs[i].len >= size && bs[i].free
    ensures NoFreeNeighbours(Carve(bs, i, size))
  {
    var c := Carve(bs, i, size);
    var d := |c| - |bs|;
    forall j | 0 < j < |c| ensures Parted(c, j) {
      if j <= i { assert Parted(bs, j); } else if j > i + d { assert Parted(bs, j - d); }
    }
  }

  lemma MergeTiles(bs: seq<Block>, i: nat, base: nat, end: nat)
    requires Tiles(bs, base, end) && i + 1 < |bs|
    ensures Tiles(Merge(bs, i), base, end)
  {
    var m := Merge(bs, i);
    assert Abuts(bs, i + 1);
    forall j | 0 < j < |m| ensures Abuts(m, j) {
      assert Abuts(bs, if j <= i then j else j + 1);
    }
  }

  lemma MergeUpTiles(bs: seq<Block>, j: nat, base: nat, end: nat)
    requires Tiles(bs, base, end) && j < |bs|
    ensures Tiles(MergeUp(bs, j), base, end)
  {
    var b := bs[j := bs[j].(free := true)];
    forall k | 0 < k < |b| ensures Abuts(b, k) {
      assert Abuts(bs, k);
    }
    if j + 1 < |bs| && bs[j + 1].free { MergeTiles(b, j, base, end); }
  }

  lemma ReleaseTiles(bs: seq<Block>, j: nat, base: nat, end: nat)
    requires Tiles(bs, base, end) && j < |bs|
    ensures Tiles(Release(bs, j), base, end)
  {
    MergeUpTiles(bs, j, base, end);
    if j > 0 && bs[j - 1].free { MergeTiles(MergeUp(bs, j), j - 1, base, end); }
  }

  /** Of the block that becomes free, only the one before it can be a free neighbour then. */
  lemma MergeUpSeparates(bs: seq<Block>, j: nat)
    requires NoFreeNeighbours(bs) && j < |bs| && !bs[j].free
    ensures forall k :: 0 < k < |MergeUp(bs, j)| && k != j ==> Parted(MergeUp(bs, j), k)
  {
    var up := MergeUp(bs, j);
    var d := |bs| - |up|;
    forall k | 0 < k < |up| && k != j ensures Parted(up, k) {
      assert Parted(bs, if k < j then k else k + d);
      if k == j + 1 && d == 1 { assert Parted(bs, j + 2); }
    }
  }

  lemma ReleaseSeparates(bs: seq<Block>, j: nat)
    requires NoFreeNeighbours(bs) && j < |bs| && !bs[j].free
    ensures NoFreeNeighbours(Release(bs, j))
  {
    var up, r := MergeUp(bs, j), Release(bs, j);
    MergeUpSeparates(bs, j);
    MergeUpAt(bs, j);
    if |r| < |up| {
      forall k | 0 < k < |r| ensures Parted(r, k) {
        assert Parted(up, if k < j then k else k + 1);
      }
    }
  }

  /** A pool with nothing handed out is one free block. */
  lemma AllFreeIsOne(bs: seq<Block>, base: nat, end: nat)
    requires Tiles(bs, base, end) && NoFreeNeighbours(bs)
    requires forall i :: 0 <= i < |bs| ==> bs[i].free
    ensures base + HLEN <= end && bs == [Block(base, end - base - HLEN, true)]
  {
    assert |bs| == 1 || Parted(bs, 1);
  }

  lemma {:induction false} Above(bs: seq<Block>, base: nat, end: nat, i: nat)
    requires Tiles(bs, base, end) && i < |bs|
    ensures base <= bs[i].addr
  {
    if i > 0 {
      assert Abuts(bs, i);
      Above(bs, base, end, i - 1);
    }
  }

  lemma {:induction false} Below(bs: seq<Block>, base: nat, end: nat, i: nat)
    requires Tiles(bs, base, end) && i < |bs|
    ensures bs[i].End() <= end
    decreases |bs| - i
  {
    if i + 1 < |bs| {
      assert Abuts(bs, i + 1);
      Below(bs, base, end, i + 1);
    }
  }

  /** Blocks never overlap: a later block begins where an earlier one has ended. */
  lemma {:induction false} Apart(bs: seq<Block>, base: nat, end: nat, i: nat, j: nat)
    requires Tiles(bs, base, end) && i < j < |bs|
    ensures bs[i].End() <= bs[j].addr
    decreases j
  {
    assert Abuts(bs, j);
    if i < j - 1 {
      Apart(bs, base, end, i, j - 1);
    }
  }

  lemma MergeParts(lo: seq<Block>, p: Block, a: Block, hi: seq<Block>)
    ensures Merge(lo + [p, a] + hi, |lo|) == lo + [p.(len := p.len + HLEN + a.len)] + hi
  {
    var bs := lo + [p, a] + hi;
    assert bs[..|lo|] == lo && bs[|lo| + 2..] == hi;
  }

  lemma SplitThenRelease(bs: seq<Block>, i: nat, size: nat)
    requires NoFreeNeighbours(bs) && i < |bs| && bs[i].free
    requires bs[i].len >= size && bs[i].len - size >= MIN_BLOCK
    ensures Release(Carve(bs, i, size), i + 1) == bs
  {
    var c := Carve(bs, i, size);
    var lo, hi := bs[..i], bs[i + 1..];
    var p, a := c[i], c[i + 1].(free := true);
    assert i + 1 == |bs| || Parted(bs, i + 1);
    assert MergeUp(c, i + 1) == c[i + 1 := a] == lo + [p, a] + hi;
    MergeParts(lo, p, a, hi);
    assert p.(len := p.len + HLEN + a.len) == bs[i];
    assert lo + [bs[i]] + hi == bs;
  }

  /** Freeing what was just handed out restores the pool exactly. */
  lemma CarveThenRelease(bs: seq<Block>, i: nat, size: nat)
    requires NoFreeNeighbours(bs) && i < |bs| && bs[i].free && bs[i].len >= size
    ensures Release(Carve(bs, i, size), Handed(bs, i, size)) == bs
  {
    if bs[i].len - size >= MIN_BLOCK {
      SplitThenRelease(bs, i, size);
    } else {
      assert i == 0 || Parted(bs, i);
      assert i + 1 == |bs| || Parted(bs, i + 1);
      assert MergeUp(bs[i := bs[i].(free := false)], i) == bs;
    }
  }
}
