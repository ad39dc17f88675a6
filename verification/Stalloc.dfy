/** The blocks as they lie in memory. */
module Stalloc {
  import opened Blocks

  /** Every header holds the length of its block. */
  ghost predicate Lens(bs: seq<Block>, ln: seq<nat>) {
    forall i :: 0 <= i < |bs| ==> 0 < bs[i].addr < |ln| && ln[bs[i].addr] == bs[i].len
  }

  /** The free list: from the head, through all free blocks, in address order. */
  ghost predicate Linked(bs: seq<Block>, head: nat, nx: seq<nat>) {
    && head == Ptr(bs, NextFree(bs, 0))
    && forall i :: 0 <= i < |bs| ==> LinkAt(bs, nx, i)
  }

  ghost predicate LinkAt(bs: seq<Block>, nx: seq<nat>, i: nat)
    requires i < |bs|
  {
    bs[i].free ==> bs[i].addr < |nx| && nx[bs[i].addr] == Ptr(bs, NextFree(bs, i + 1))
  }

  lemma Differ(bs: seq<Block>, base: nat, end: nat, i: nat, j: nat)
    requires Tiles(bs, base, end) && i < |bs| && j < |bs| && i != j
    ensures bs[i].addr != bs[j].addr
  {
    if i < j { Apart(bs, base, end, i, j); } else { Apart(bs, base, end, j, i); }
  }

  // ----- unlinking a free block

  lemma NextWithout(bs: seq<Block>, i: nat, k: nat)
    requires i < |bs| && k <= |bs| && bs[i].free
    ensures var f := NextFree(bs, k);
      NextFree(bs[i := bs[i].(free := false)], k) == if f == i then NextFree(bs, i + 1) else f
  {
    NextFreeFirst(bs, k);
    NextFreeFirst(bs, i + 1);
    var f := NextFree(bs, k);
    NextFreeIs(bs[i := bs[i].(free := false)], k, if f == i then NextFree(bs, i + 1) else f);
  }

  /** Unlinking free block `i`: the list cell before it, at `qi` (or the head), takes over
      its link. */
  lemma Unlink(bs: seq<Block>, base: nat, end: nat, i: nat, qi: int, head: nat, nx: seq<nat>)
    requires Tiles(bs, base, end) && Linked(bs, head, nx) && i < |bs| && bs[i].free
    requires -1 <= qi < i && (qi >= 0 ==> bs[qi].free && bs[qi].addr < |nx|)
    requires NextFree(bs, qi + 1) == i && bs[i].addr < |nx|
    ensures Linked(bs[i := bs[i].(free := false)],
                   if qi == -1 then nx[bs[i].addr] else head,
                   if qi == -1 then nx else nx[bs[qi].addr := nx[bs[i].addr]])
  {
    var b := bs[i := bs[i].(free := false)];
    var nx' := if qi == -1 then nx else nx[bs[qi].addr := nx[bs[i].addr]];
    assert LinkAt(bs, nx, i);
    NextFreeFirst(bs, qi + 1);
    forall k | 0 <= k < |b| ensures LinkAt(b, nx', k) {
      assert LinkAt(bs, nx, k);
      NextWithout(bs, i, k + 1);
      NextFreeFirst(bs, k + 1);
      if qi >= 0 && k != qi { Differ(bs, base, end, k, qi); }
    }
    NextWithout(bs, i, 0);
    NextFreeFirst(bs, 0);
  }

  // ----- splitting a free block

  /** `c` is `bs` with an allocated block put in after block `i`. */
  ghost predicate IsSplit(bs: seq<Block>, c: seq<Block>, i: nat) {
    && i < |bs| && |c| == |bs| + 1 && bs[i].free && !c[i + 1].free
    && (forall k :: 0 <= k <= i ==> c[k].addr == bs[k].addr && c[k].free == bs[k].free)
    && (forall k :: i + 1 < k < |c| ==> c[k] == bs[k - 1])
  }

  lemma NextSplit(bs: seq<Block>, c: seq<Block>, i: nat, k: nat)
    requires IsSplit(bs, c, i) && k <= |bs|
    ensures k <= i ==> NextFree(c, k) == NextFree(bs, k) <= i
    ensures k > i ==> NextFree(c, k) == NextFree(c, k + 1) == NextFree(bs, k) + 1 || k > i + 1
    ensures k > i ==> NextFree(c, k + 1) == NextFree(bs, k) + 1
  {
    NextFreeFirst(bs, k);
    var f := NextFree(bs, k);
    if k <= i {
      NextFreeIs(c, k, f);
    } else {
      NextFreeIs(c, k + 1, f + 1);
    }
  }

  lemma SplitLinkAt(bs: seq<Block>, c: seq<Block>, i: nat, nx: seq<nat>, k: nat)
    requires IsSplit(bs, c, i) && k < |bs| && LinkAt(bs, nx, k)
    ensures LinkAt(c, nx, if k <= i then k else k + 1)
  {
    NextSplit(bs, c, i, k + 1);
  }

  /** Splitting free block `i` leaves the list as it is. */
  lemma SplitLinks(bs: seq<Block>, c: seq<Block>, i: nat, head: nat, nx: seq<nat>)
    requires IsSplit(bs, c, i) && Linked(bs, head, nx)
    ensures Linked(c, head, nx)
  {
    forall k | 0 <= k < |c| ensures LinkAt(c, nx, k) {
      if k != i + 1 {
        var o := if k <= i then k else k - 1;
        assert LinkAt(bs, nx, o);
        SplitLinkAt(bs, c, i, nx, o);
      }
    }
    NextSplit(bs, c, i, 0);
  }

  // ----- linking a block in

  /** `b` is `bs` with block `j` freed. */
  ghost predicate IsFreed(bs: seq<Block>, b: seq<Block>, j: nat) {
    && j < |bs| == |b| && !bs[j].free && b[j].free && b[j].addr == bs[j].addr
    && forall k :: 0 <= k < |bs| && k != j ==> b[k] == bs[k]
  }

  lemma NextWith(bs: seq<Block>, b: seq<Block>, j: nat, k: nat)
    requires IsFreed(bs, b, j) && k <= |bs|
    ensures var f := NextFree(bs, k);
      && NextFree(b, k) == (if k <= j < f then j else f)
      && (f < |bs| ==> bs[f].free)
      && forall x :: k <= x < f ==> !bs[x].free
  {
    NextFreeFirst(bs, k);
    var f := NextFree(bs, k);
    NextFreeIs(b, k, if k <= j < f then j else f);
  }

  /** Links of blocks below `qi` and above `j` are not affected. */
  lemma InsertLinkFar(bs: seq<Block>, b: seq<Block>, j: nat, qi: nat, nx: seq<nat>, nx': seq<nat>, k: nat)
    requires IsFreed(bs, b, j) && qi < j && bs[qi].free && k < |bs| && LinkAt(bs, nx, k)
    requires k < qi || k > j
    requires |nx'| == |nx| && (bs[k].addr < |nx| ==> nx'[bs[k].addr] == nx[bs[k].addr])
    ensures LinkAt(b, nx', k)
  {
    NextWith(bs, b, j, k + 1);
    var f := NextFree(bs, k + 1);
    assert f <= qi || k > j;
    assert NextFree(b, k + 1) == f && f != j;
    assert Ptr(b, f) == Ptr(bs, f);
  }

  lemma InsertedNext(bs: seq<Block>, b: seq<Block>, j: nat, qi: nat)
    requires IsFreed(bs, b, j) && qi < j && NextFree(bs, qi + 1) == NextFree(bs, j + 1)
    ensures NextFree(b, qi + 1) == j
    ensures NextFree(b, j + 1) == NextFree(bs, j + 1)
    ensures Ptr(b, NextFree(b, j + 1)) == Ptr(bs, NextFree(bs, j + 1))
    ensures forall k :: qi < k < j ==> !b[k].free
  {
    NextWith(bs, b, j, qi + 1);
    NextWith(bs, b, j, j + 1);
  }

  /** Linking block `j` in after the free block at `qi`. */
  lemma Insert(bs: seq<Block>, base: nat, end: nat, b: seq<Block>, j: nat, qi: nat, head: nat, nx: seq<nat>)
    requires Tiles(bs, base, end) && Linked(bs, head, nx) && IsFreed(bs, b, j)
    requires qi < j && bs[qi].free && bs[j].addr < |nx| && bs[qi].addr < |nx|
    requires NextFree(bs, qi + 1) == NextFree(bs, j + 1)
    ensures Linked(b, head, nx[bs[j].addr := Ptr(bs, NextFree(bs, j + 1))][bs[qi].addr := bs[j].addr])
  {
    var nx' := nx[bs[j].addr := Ptr(bs, NextFree(bs, j + 1))][bs[qi].addr := bs[j].addr];
    Differ(bs, base, end, j, qi);
    InsertedNext(bs, b, j, qi);
    forall k | 0 <= k < |bs| ensures LinkAt(b, nx', k) {
      assert LinkAt(bs, nx, k);
      if k != qi { Differ(bs, base, end, k, qi); }
      if k != j { Differ(bs, base, end, k, j); }
      if k < qi || k > j { InsertLinkFar(bs, b, j, qi, nx, nx', k); }
    }
    NextWith(bs, b, j, 0);
  }

  // ----- merging two free neighbours

  /** `m` is `bs` with the free blocks `i` and `i + 1` made one. */
  ghost predicate IsMerged(bs: seq<Block>, m: seq<Block>, i: nat) {
    && i + 1 < |bs| && |m| == |bs| - 1 && bs[i].free && bs[i + 1].free
    && (forall k :: 0 <= k <= i ==> m[k].addr == bs[k].addr && m[k].free == bs[k].free)
    && (forall k :: i < k < |m| ==> m[k] == bs[k + 1])
  }

  lemma NextMerged(bs: seq<Block>, m: seq<Block>, i: nat, k: nat)
    requires IsMerged(bs, m, i) && k <= |bs|
    ensures k <= i ==> NextFree(m, k) == NextFree(bs, k) <= i
    ensures k > i + 1 ==> NextFree(m, k - 1) == NextFree(bs, k) - 1
  {
    NextFreeFirst(bs, k);
    var f := NextFree(bs, k);
    if k <= i {
      NextFreeIs(m, k, f);
    } else if k > i + 1 {
      NextFreeIs(m, k - 1, f - 1);
    }
  }

  lemma MergeLinkAt(bs: seq<Block>, m: seq<Block>, i: nat, nx: seq<nat>, nx': seq<nat>, k: nat)
    requires IsMerged(bs, m, i) && k < |bs| && k != i && LinkAt(bs, nx, k)
    requires |nx'| == |nx| && bs[i].addr < |nx|
    requires k == i + 1 ==> bs[k].addr < |nx| && nx'[bs[i].addr] == nx[bs[k].addr]
    requires k != i + 1 && bs[k].addr < |nx| ==> nx'[bs[k].addr] == nx[bs[k].addr]
    ensures LinkAt(m, nx', if k < i then k else k - 1)
  {
    NextMerged(bs, m, i, k + 1);
  }

  /** The lower block takes over the link of the upper one. */
  lemma MergeLinks(bs: seq<Block>, base: nat, end: nat, m: seq<Block>, i: nat, head: nat, nx: seq<nat>)
    requires Tiles(bs, base, end) && Linked(bs, head, nx) && IsMerged(bs, m, i)
    requires bs[i].addr < |nx| && bs[i + 1].addr < |nx|
    ensures Linked(m, head, nx[bs[i].addr := nx[bs[i + 1].addr]])
  {
    var nx' := nx[bs[i].addr := nx[bs[i + 1].addr]];
    forall k | 0 <= k < |m| ensures LinkAt(m, nx', k) {
      var o := if k < i then k else k + 1;
      assert LinkAt(bs, nx, o);
      Differ(bs, base, end, o, i);
      MergeLinkAt(bs, m, i, nx, nx', o);
    }
    NextMerged(bs, m, i, 0);
  }

  lemma MergeLens(bs: seq<Block>, base: nat, end: nat, i: nat, ln: seq<nat>)
    requires Tiles(bs, base, end) && Lens(bs, ln) && i + 1 < |bs|
    ensures Lens(Merge(bs, i), ln[bs[i].addr := ln[bs[i].addr] + HLEN + ln[bs[i + 1].addr]])
  {
    var m := Merge(bs, i);
    forall k | 0 <= k < |m|
      ensures var ln' := ln[bs[i].addr := ln[bs[i].addr] + HLEN + ln[bs[i + 1].addr]];
        0 < m[k].addr < |ln'| && ln'[m[k].addr] == m[k].len
    {
      var o := if k <= i then k else k + 1;
      if o != i { Differ(bs, base, end, o, i); }
    }
  }

  // ----- lengths after a split

  lemma CutSplits(bs: seq<Block>, i: nat, lo: Block, hi: Block)
    requires i < |bs| && lo.addr == bs[i].addr && lo.free && bs[i].free && !hi.free
    ensures var c := Cut(bs, i, lo, hi);
      IsSplit(bs, c, i) && c[i] == lo && c[i + 1] == hi && forall x :: 0 <= x < i ==> c[x] == bs[x]
  {
  }

  /** What a split makes of block `i`. */
  lemma CarveSplits(bs: seq<Block>, i: nat, size: nat)
    requires i < |bs| && bs[i].free && bs[i].len >= size && bs[i].len - size >= MIN_BLOCK
    ensures var c, k := Carve(bs, i, size), bs[i].len - size - HLEN;
      && IsSplit(bs, c, i) && c[i] == bs[i].(len := k)
      && c[i + 1] == Block(bs[i].addr + HLEN + k, size, false)
      && (forall x :: 0 <= x < i ==> c[x] == bs[x])
  {
    var k := bs[i].len - size - HLEN;
    CutSplits(bs, i, bs[i].(len := k), Block(bs[i].addr + HLEN + k, size, false));
  }

  lemma CarveLens(bs: seq<Block>, c: seq<Block>, base: nat, end: nat, i: nat, ln: seq<nat>)
    requires 0 < base && Tiles(c, base, end) && Lens(bs, ln) && end <= |ln| && IsSplit(bs, c, i)
    requires (forall x :: 0 <= x < i ==> c[x] == bs[x]) && c[i + 1].addr < |ln|
    ensures Lens(c, ln[c[i].addr := c[i].len][c[i + 1].addr := c[i + 1].len])
  {
    var ln' := ln[c[i].addr := c[i].len][c[i + 1].addr := c[i + 1].len];
    Above(c, base, end, i + 1);
    forall x | 0 <= x < |c| ensures 0 < c[x].addr < |ln'| && ln'[c[x].addr] == c[x].len {
      if x != i { Differ(c, base, end, x, i); }
      if x != i + 1 { Differ(c, base, end, x, i + 1); }
    }
  }

  // ----- freeing, as updates of the memory

  /** Step B3 of stalloc_free: `p0` is linked to `p`, or swallows it. */
  function JoinUp(nx: seq<nat>, ln: seq<nat>, p0: nat, p: nat): (r: (seq<nat>, seq<nat>))
    requires p0 < |nx| == |ln| && p < |nx|
    ensures |r.0| == |r.1| == |nx|
  {
    if p != 0 && p0 + ln[p0] + HLEN == p then (nx[p0 := nx[p]], ln[p0 := ln[p0] + HLEN + ln[p]])
    else (nx[p0 := p], ln)
  }

  /** Step B4: `q` is linked to `p0`, or swallows it. */
  function JoinDown(nx: seq<nat>, ln: seq<nat>, q: nat, p0: nat): (r: (seq<nat>, seq<nat>))
    requires p0 < |nx| == |ln| && q < |nx|
    ensures |r.0| == |r.1| == |nx|
  {
    if q + ln[q] + HLEN == p0 then (nx[q := nx[p0]], ln[q := ln[q] + HLEN + ln[p0]])
    else (nx[q := p0], ln)
  }

  /** A block further on begins where block `j` ends only if it is the next one. */
  lemma TouchesNext(bs: seq<Block>, base: nat, end: nat, j: nat, f: nat)
    requires Tiles(bs, base, end) && j < f < |bs|
    ensures bs[j].End() == bs[f].addr <==> f == j + 1
  {
    assert Abuts(bs, j + 1);
    if f > j + 1 { Apart(bs, base, end, j + 1, f); }
  }

  /** The situation when stalloc_free has found its place: `qi` is the free block before
      block `j` and `f` the one after it, if any. */
  ghost predicate Placed(bs: seq<Block>, base: nat, end: nat, qi: nat, j: nat, f: nat, n: nat) {
    && Tiles(bs, base, end) && qi < j < f <= |bs| && bs[qi].free && !bs[j].free
    && NextFree(bs, qi + 1) == NextFree(bs, j + 1) == f
    && bs[qi].addr < n && bs[j].addr < n && (f < |bs| ==> bs[f].free && bs[f].addr < n)
  }

  lemma UpPlain(bs: seq<Block>, base: nat, end: nat, qi: nat, j: nat, f: nat, head: nat, nx: seq<nat>)
    requires Placed(bs, base, end, qi, j, f, |nx|) && Linked(bs, head, nx)
    requires f == |bs| || f > j + 1
    ensures Linked(MergeUp(bs, j), head, nx[bs[j].addr := Ptr(bs, f)][bs[qi].addr := bs[j].addr])
  {
    NextFreeFirst(bs, j + 1);
    Insert(bs, base, end, MergeUp(bs, j), j, qi, head, nx);
  }

  lemma Rewrite(nx: seq<nat>, p0: nat, q: nat, x: nat, y: nat)
    requires p0 < |nx| && q < |nx| && p0 != q
    ensures nx[p0 := x][q := p0][p0 := y] == nx[p0 := y][q := p0]
    ensures nx[q := p0][q := y] == nx[q := y]
  {
  }

  lemma FreedAbuts(bs: seq<Block>, base: nat, end: nat, j: nat)
    requires Tiles(bs, base, end) && j < |bs|
    ensures Tiles(bs[j := bs[j].(free := true)], base, end)
  {
    var b := bs[j := bs[j].(free := true)];
    forall k | 0 < k < |b| ensures Abuts(b, k) { assert Abuts(bs, k); }
  }

  lemma UpMerges(bs: seq<Block>, base: nat, end: nat, qi: nat, j: nat, head: nat, nx: seq<nat>)
    requires Placed(bs, base, end, qi, j, j + 1, |nx|) && j + 1 < |bs| && Linked(bs, head, nx)
    ensures Linked(MergeUp(bs, j), head, nx[bs[j].addr := nx[bs[j + 1].addr]][bs[qi].addr := bs[j].addr])
  {
    var b := bs[j := bs[j].(free := true)];
    var q, p0, p := bs[qi].addr, bs[j].addr, bs[j + 1].addr;
    Insert(bs, base, end, b, j, qi, head, nx);
    Differ(bs, base, end, j, qi);
    Differ(bs, base, end, j + 1, qi);
    Differ(bs, base, end, j + 1, j);
    FreedAbuts(bs, base, end, j);
    Merged(b, j);
    MergeLinks(b, base, end, Merge(b, j), j, head, nx[p0 := p][q := p0]);
    Rewrite(nx, p0, q, p, nx[p]);
  }

  lemma Merged(b: seq<Block>, i: nat)
    requires i + 1 < |b| && b[i].free && b[i + 1].free
    ensures IsMerged(b, Merge(b, i), i)
  {
  }

  lemma UpLens(bs: seq<Block>, base: nat, end: nat, j: nat, ln: seq<nat>)
    requires Tiles(bs, base, end) && Lens(bs, ln) && j < |bs|
    ensures Lens(MergeUp(bs, j), if j + 1 < |bs| && bs[j + 1].free
      then ln[bs[j].addr := ln[bs[j].addr] + HLEN + ln[bs[j + 1].addr]] else ln)
  {
    var b := bs[j := bs[j].(free := true)];
    assert Lens(b, ln);
    if j + 1 < |bs| && bs[j + 1].free {
      FreedAbuts(bs, base, end, j);
      MergeLens(b, base, end, j, ln);
    }
  }

  lemma JoinUpLinked(bs: seq<Block>, base: nat, end: nat, qi: nat, j: nat, f: nat, head: nat, nx: seq<nat>, ln: seq<nat>)
    requires Placed(bs, base, end, qi, j, f, |nx|)
    requires Lens(bs, ln) && Linked(bs, head, nx) && |nx| == |ln|
    ensures var r := JoinUp(nx, ln, bs[j].addr, Ptr(bs, f));
      Lens(MergeUp(bs, j), r.1) && Linked(MergeUp(bs, j), head, r.0[bs[qi].addr := bs[j].addr])
  {
    NextFreeFirst(bs, j + 1);
    if f < |bs| { TouchesNext(bs, base, end, j, f); }
    UpLens(bs, base, end, j, ln);
    if f == j + 1 && f < |bs| {
      UpMerges(bs, base, end, qi, j, head, nx);
    } else {
      UpPlain(bs, base, end, qi, j, f, head, nx);
    }
  }

  lemma DownMerges(b: seq<Block>, base: nat, end: nat, qi: nat, head: nat, nx: seq<nat>, ln: seq<nat>)
    requires Tiles(b, base, end) && Lens(b, ln) && |nx| == |ln|
    requires qi + 1 < |b| && b[qi].free && b[qi + 1].free
    requires Linked(b, head, nx[b[qi].addr := b[qi + 1].addr])
    ensures Lens(Merge(b, qi), ln[b[qi].addr := ln[b[qi].addr] + HLEN + ln[b[qi + 1].addr]])
    ensures Linked(Merge(b, qi), head, nx[b[qi].addr := nx[b[qi + 1].addr]])
  {
    var q, p0 := b[qi].addr, b[qi + 1].addr;
    Differ(b, base, end, qi, qi + 1);
    MergeLinks(b, base, end, Merge(b, qi), qi, head, nx[q := p0]);
    MergeLens(b, base, end, qi, ln);
    Rewrite(nx, p0, q, p0, nx[p0]);
  }

  lemma JoinDownLinked(b: seq<Block>, base: nat, end: nat, qi: nat, j: nat, head: nat, nx: seq<nat>, ln: seq<nat>)
    requires Tiles(b, base, end) && Lens(b, ln) && |nx| == |ln|
    requires qi < j < |b| && b[qi].free && b[j].free && b[qi].addr < |nx| && b[j].addr < |nx|
    requires Linked(b, head, nx[b[qi].addr := b[j].addr])
    ensures var r := JoinDown(nx, ln, b[qi].addr, b[j].addr);
      if qi + 1 == j then Lens(Merge(b, qi), r.1) && Linked(Merge(b, qi), head, r.0)
      else Lens(b, r.1) && Linked(b, head, r.0)
  {
    TouchesNext(b, base, end, qi, j);
    if qi + 1 == j {
      DownMerges(b, base, end, qi, head, nx, ln);
    }
  }

  /** What freeing block `j` comes to, with `qi` the free block found below it. */
  lemma ReleaseIs(bs: seq<Block>, qi: nat, j: nat)
    requires qi < j < |bs| && bs[qi].free && NextFree(bs, qi + 1) > j
    ensures var b := MergeUp(bs, j);
      && Release(bs, j) == (if qi + 1 == j then Merge(b, qi) else b)
      && b[qi] == bs[qi] && b[j].free && b[j].addr == bs[j].addr
  {
    NextFreeFirst(bs, qi + 1);
    assert bs[j - 1].free <==> qi + 1 == j;
    MergeUpAt(bs, j);
  }

  /** The two steps together free block `j`. */
  lemma JoinLinked(bs: seq<Block>, base: nat, end: nat, qi: nat, j: nat, f: nat, head: nat, nx: seq<nat>, ln: seq<nat>)
    requires Placed(bs, base, end, qi, j, f, |nx|)
    requires Lens(bs, ln) && Linked(bs, head, nx) && |nx| == |ln|
    ensures var r := JoinUp(nx, ln, bs[j].addr, Ptr(bs, f));
      var r' := JoinDown(r.0, r.1, bs[qi].addr, bs[j].addr);
      Lens(Release(bs, j), r'.1) && Linked(Release(bs, j), head, r'.0)
  {
    var r := JoinUp(nx, ln, bs[j].addr, Ptr(bs, f));
    JoinUpLinked(bs, base, end, qi, j, f, head, nx, ln);
    MergeUpTiles(bs, j, base, end);
    ReleaseIs(bs, qi, j);
    JoinDownLinked(MergeUp(bs, j), base, end, qi, j, head, r.0, r.1);
  }

  // ----- the allocator

  class Pool {
    var head: nat              // __stmp__
    const next: array<nat>     // the `next` field of the header at each address
    const len: array<nat>      // the `len` field of the header at each address
    ghost const base: nat
    ghost const end: nat
    ghost var blocks: seq<Block>

    /** The blocks tile the pool, and their headers say so. */
    ghost predicate Laid()
      reads this, len
    {
      && 0 < base && end - base < WORD && end <= next.Length == len.Length && next != len
      && Tiles(blocks, base, end) && Lens(blocks, len[..])
    }

    ghost predicate Valid()
      reads this, next, len
    {
      && Laid() && NoFreeNeighbours(blocks)
      && Linked(blocks, head, next[..])
    }

    /** stalloc_init_mempool; memory outside the pool's first header holds anything. */
    constructor (memory: nat, pool: nat, size: nat)
      requires 0 < pool && HLEN <= size < WORD && pool + size <= memory
      ensures Valid() && fresh(next) && fresh(len)
      ensures blocks == [Block(pool, size - HLEN, true)] && base == pool && end == pool + size
      ensures next.Length == memory
    {
      next := new nat[memory];
      len := new nat[memory];
      base, end := pool, pool + size;
      head := pool;
      blocks := [Block(pool, size - HLEN, true)];
      new;
      next[pool] := 0;
      len[pool] := size - HLEN;
    }

    /** Follows the link in cell `q`: the head of the list, or the header of block `q`. */
    function Link(q: int): nat
      requires -1 <= q < next.Length
      reads this, next
    {
      if q == -1 then head else next[q]
    }

    method SetLink(q: int, p: nat)
      requires -1 <= q < next.Length
      modifies this`head, next
      ensures q == -1 ==> head == p && next[..] == old(next[..])
      ensures q >= 0 ==> head == old(head) && next[..] == old(next[..])[q := p]
    {
      if q == -1 { head := p; } else { next[q] := p; }
    }

    /** The search of stalloc: the cell before the first free block that is large enough. */
    method Find(size: nat) returns (q: int, ghost qi: int)
      requires Valid()
      ensures -1 <= qi < |blocks|
      ensures qi == -1 ==> q == -1
      ensures qi >= 0 ==> blocks[qi].free && q == blocks[qi].addr && q < next.Length
      ensures var i := FirstFit(blocks, size);
        qi < i && Link(q) == Ptr(blocks, i) && (i < |blocks| ==> NextFree(blocks, qi + 1) == i)
    {
      q, qi := -1, -1;
      while true
        invariant -1 <= qi < |blocks|
        invariant qi == -1 ==> q == -1
        invariant qi >= 0 ==> blocks[qi].free && q == blocks[qi].addr && q < next.Length
        invariant qi < FirstFit(blocks, size) == FirstFit(blocks, size, qi + 1)
        decreases |blocks| - qi
      {
        ghost var pi := NextFree(blocks, qi + 1);
        assert qi >= 0 ==> LinkAt(blocks, next[..], qi);
        NextFreeFirst(blocks, qi + 1);
        FirstFitSkips(blocks, size, qi + 1, pi);
        var p := Link(q);
        if p == 0 {
          return;
        }
        if len[p] >= size {
          return;
        }
        q, qi := p, pi;
      }
    }

    /** Handing out block `i` whole: it leaves the list. */
    method TakeWhole(q: int, ghost qi: int, p: nat, ghost i: nat)
      requires Valid() && i < |blocks| && blocks[i].free && p == blocks[i].addr
      requires -1 <= qi < i && (if qi == -1 then q == -1 else blocks[qi].free && q == blocks[qi].addr)
      requires -1 <= q < next.Length && NextFree(blocks, qi + 1) == i
      modifies this`head, this`blocks, next
      ensures Valid() && blocks == old(blocks)[i := old(blocks)[i].(free := false)]
      ensures forall a :: 0 <= a < next.Length && a != q ==> next[a] == old(next[a])
    {
      Unlink(blocks, base, end, i, qi, head, next[..]);
      CarveTiles(blocks, i, blocks[i].len, base, end);
      CarveSeparates(blocks, i, blocks[i].len);
      SetLink(q, next[p]);
      blocks := blocks[i := blocks[i].(free := false)];
    }

    /** Splitting block `i`: its upper part gets a header of its own. */
    method Split(p: nat, ghost i: nat, k: nat, size: nat) returns (q: nat)
      requires Valid() && i < |blocks| && blocks[i].free && p == blocks[i].addr
      requires blocks[i].len == k + HLEN + size && k + HLEN >= MIN_BLOCK
      modifies this`blocks, len
      ensures Valid() && blocks == Carve(old(blocks), i, size)
      ensures q == blocks[i + 1].addr
    {
      ghost var c := Carve(blocks, i, size);
      CarveSplits(blocks, i, size);
      CarveTiles(blocks, i, size, base, end);
      CarveSeparates(blocks, i, size);
      Below(c, base, end, i + 1);
      CarveLens(blocks, c, base, end, i, len[..]);
      SplitLinks(blocks, c, i, head, next[..]);
      len[p] := k;
      q := p + HLEN + k;
      len[q] := size;
      blocks := c;
    }

    /** stalloc.  The first block that fits is split if at least 24 bytes would be left over: its
        upper end is handed out, exactly as long as asked for.  Else it is handed out whole.  The
        headers of live blocks keep their links, which mean nothing. */
    method Alloc(size: nat) returns (r: nat)
      requires Valid() && size < WORD
      modifies this`head, this`blocks, next, len
      ensures Valid()
      ensures var i := old(FirstFit(blocks, RoundUp(size)));
        if i == |old(blocks)| then r == 0 && blocks == old(blocks)
        else
          var h := Handed(old(blocks), i, RoundUp(size));
          && blocks == Carve(old(blocks), i, RoundUp(size))
          && r == blocks[h].addr + HLEN && !blocks[h].free && blocks[h].len >= RoundUp(size)
      ensures var i := old(FirstFit(blocks, RoundUp(size)));
        i < |old(blocks)| ==> HandedOut(old(blocks), blocks, i, RoundUp(size), r)
      ensures forall k :: 0 <= k < |blocks| && !blocks[k].free && blocks[k].addr < next.Length ==>
        next[blocks[k].addr] == old(next[..])[blocks[k].addr]
    {
      var sz := RoundUp(size);
      var q, qi := Find(sz);
      ghost var i := FirstFit(blocks, sz);
      var p := Link(q);
      if p == 0 {
        return 0;
      }
      CarveHandsOut(blocks, i, sz);
      var k := len[p] - sz;
      if k < MIN_BLOCK {
        TakeWhole(q, qi, p, i);
        if qi >= 0 {
          StillApart(blocks, base, end, qi);
        }
        return p + HLEN;
      }
      k := k - HLEN;
      r := Split(p, i, k, sz);
      r := r + HLEN;
    }

    /** The search of stalloc_free (B2). */
    method FindPlace(p0: nat, ghost j: nat) returns (q: nat, p: nat, ghost qi: nat)
      requires Valid() && head != 0
      requires j < |blocks| && !blocks[j].free && p0 == blocks[j].addr
      ensures qi < |blocks| && blocks[qi].free && q == blocks[qi].addr
      ensures p == Ptr(blocks, NextFree(blocks, qi + 1)) < next.Length
      ensures head < p0 ==> var f := NextFree(blocks, j + 1);
        Placed(blocks, base, end, qi, j, f, next.Length) && p == Ptr(blocks, f)
    {
      q, qi := head, NextFree(blocks, 0);
      NextFreeFirst(blocks, 0);
      Order(blocks, base, end, j, qi);
      while true
        invariant qi < |blocks| && blocks[qi].free && q == blocks[qi].addr
        invariant head < p0 ==> qi < j
        decreases |blocks| - qi
      {
        assert LinkAt(blocks, next[..], qi);
        NextFreeFirst(blocks, qi + 1);
        ghost var f := NextFree(blocks, qi + 1);
        p := next[q];
        if f < |blocks| { Order(blocks, base, end, j, f); }
        if p == 0 || p > p0 {
          if head < p0 {
            NextFreeIs(blocks, j + 1, f);
            Below(blocks, base, end, j);
          }
          return;
        }
        q, qi := p, f;
      }
    }

    /** Step B3 of stalloc_free. */
    method LinkUp(p0: nat, p: nat)
      requires p0 < next.Length == len.Length && p < next.Length && next != len
      modifies next, len
      ensures next[..] == old(JoinUp(next[..], len[..], p0, p)).0
      ensures len[..] == old(JoinUp(next[..], len[..], p0, p)).1
    {
      if p != 0 && p0 + len[p0] + HLEN == p {
        len[p0] := len[p0] + HLEN + len[p];
        next[p0] := next[p];
      } else {
        next[p0] := p;
      }
    }

    /** Step B4 of stalloc_free. */
    method LinkDown(q: nat, p0: nat)
      requires p0 < next.Length == len.Length && q < next.Length && next != len
      modifies next, len
      ensures next[..] == old(JoinDown(next[..], len[..], q, p0)).0
      ensures len[..] == old(JoinDown(next[..], len[..], q, p0)).1
    {
      if q + len[q] + HLEN == p0 {
        len[q] := len[q] + HLEN + len[p0];
        next[q] := next[p0];
      } else {
        next[q] := p0;
      }
    }

    /** stalloc_free of the live block `j`.  The pool stays in order exactly when the list is
        not empty and its head lies below the freed block; into an empty list the block goes
        with whatever its own link holds. */
    method Free(memp: nat, ghost j: nat)
      requires Valid()
      requires memp != 0 ==> j < |blocks| && !blocks[j].free && memp == blocks[j].addr + HLEN
      modifies this`head, this`blocks, next, len
      ensures memp == 0 ==> Valid() && blocks == old(blocks) && head == old(head)
      ensures memp != 0 ==> blocks == Release(old(blocks), j)
      ensures memp != 0 ==>
        (Valid() <==> if old(head) == 0 then old(next[memp - HLEN]) == 0 else old(head) < memp - HLEN)
    {
      if memp == 0 {
        return;
      }
      var p0 := memp - HLEN;
      ReleaseTiles(blocks, j, base, end);
      ReleaseSeparates(blocks, j);
      if head == 0 {
        FreeIntoEmpty(blocks, j, next[..]);
        head := p0;
        blocks := Release(blocks, j);
        return;
      }
      LinkIn(p0, j);
    }

    /** The part of stalloc_free for a list that is not empty. */
    method LinkIn(p0: nat, ghost j: nat)
      requires Valid() && head != 0 && j < |blocks| && !blocks[j].free && p0 == blocks[j].addr
      requires Tiles(Release(blocks, j), base, end) && NoFreeNeighbours(Release(blocks, j))
      modifies this`blocks, next, len
      ensures blocks == Release(old(blocks), j)
      ensures Valid() <==> head < p0
    {
      var q, p, qi := FindPlace(p0, j);
      if head < p0 {
        JoinLinked(blocks, base, end, qi, j, NextFree(blocks, j + 1), head, next[..], len[..]);
      } else {
        FreeBelowHead(blocks, base, end, j);
      }
      LinkUp(p0, p);
      LinkDown(q, p0);
      blocks := Release(blocks, j);
    }
  }

  lemma StillApart(bs: seq<Block>, base: nat, end: nat, q: nat)
    requires Tiles(bs, base, end) && q < |bs|
    ensures forall k :: 0 <= k < |bs| && k != q ==> bs[k].addr != bs[q].addr
  {
    forall k | 0 <= k < |bs| && k != q ensures bs[k].addr != bs[q].addr {
      Differ(bs, base, end, k, q);
    }
  }

  lemma Order(bs: seq<Block>, base: nat, end: nat, i: nat, j: nat)
    requires Tiles(bs, base, end) && i < |bs| && j < |bs|
    ensures bs[i].addr < bs[j].addr <==> i < j
  {
    if i < j { Apart(bs, base, end, i, j); }
    if j < i { Apart(bs, base, end, j, i); }
  }

  /** With no free block the freed one becomes the whole list, whose end is its old link. */
  lemma FreeIntoEmpty(bs: seq<Block>, j: nat, nx: seq<nat>)
    requires j < |bs| && !bs[j].free && NextFree(bs, 0) == |bs| && bs[j].addr < |nx|
    ensures Release(bs, j) == bs[j := bs[j].(free := true)]
    ensures Linked(Release(bs, j), bs[j].addr, nx) <==> nx[bs[j].addr] == 0
  {
    var b := bs[j := bs[j].(free := true)];
    NextFreeFirst(bs, 0);
    NextFreeIs(b, 0, j);
    NextFreeIs(b, j + 1, |b|);
    assert Linked(b, bs[j].addr, nx) ==> LinkAt(b, nx, j);
  }

  /** Freed below the head, the block is not where the list starts. */
  lemma FreeBelowHead(bs: seq<Block>, base: nat, end: nat, j: nat)
    requires Tiles(bs, base, end) && j < |bs| && !bs[j].free
    requires NextFree(bs, 0) < |bs| && bs[NextFree(bs, 0)].addr >= bs[j].addr
    ensures Ptr(Release(bs, j), NextFree(Release(bs, j), 0)) == bs[j].addr
    ensures bs[NextFree(bs, 0)].addr != bs[j].addr
  {
    var f := NextFree(bs, 0);
    NextFreeFirst(bs, 0);
    Order(bs, base, end, f, j);
    Order(bs, base, end, j, f);
    var r := Release(bs, j);
    MergeUpAt(bs, j);
    NextFreeIs(r, 0, j);
  }

  lemma {:induction false} FirstFitSkips(bs: seq<Block>, size: nat, i: nat, j: nat)
    requires i <= j <= |bs|
    requires forall k :: i <= k < j ==> !bs[k].free
    ensures FirstFit(bs, size, i) == FirstFit(bs, size, j)
    decreases j - i
  {
    if i < j { FirstFitSkips(bs, size, i + 1, j); }
  }
}
