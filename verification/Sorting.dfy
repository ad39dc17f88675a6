/** The kernel's own quicksort and binary search (tk_ansi_search.c), for any comparator that
    is a total preorder. */
module Sorting {

  type Cmp<!T> = (T, T) -> int

  /** Swapping the arguments turns the sign around. */
  ghost predicate Signed<T(!new)>(cmp: Cmp<T>) {
    forall x, y :: cmp(x, y) < 0 <==> cmp(y, x) > 0
  }

  ghost predicate Chains<T>(cmp: Cmp<T>, x: T, y: T, z: T) {
    cmp(x, y) <= 0 && cmp(y, z) <= 0 ==> cmp(x, z) <= 0
  }

  ghost predicate Transitive<T(!new)>(cmp: Cmp<T>) {
    forall x, y, z :: Chains(cmp, x, y, z)
  }

  ghost predicate TotalPreorder<T(!new)>(cmp: Cmp<T>) {
    Signed(cmp) && Transitive(cmp)
  }

  /** The elements from `l` to `r`, both included, ascend. */
  ghost predicate Sorted<T>(s: seq<T>, l: int, r: int, cmp: Cmp<T>)
    requires 0 <= l && r < |s|
  {
    forall i, j :: l <= i < j <= r ==> cmp(s[i], s[j]) <= 0
  }

  /** No element from `l` to `r` is smaller than `x`. */
  ghost predicate From<T>(s: seq<T>, l: int, r: int, x: T, cmp: Cmp<T>)
    requires 0 <= l && r < |s|
  {
    forall k :: l <= k <= r ==> cmp(x, s[k]) <= 0
  }

  /** No element from `l` to `r` is larger than `x`. */
  ghost predicate UpTo<T>(s: seq<T>, l: int, r: int, x: T, cmp: Cmp<T>)
    requires 0 <= l && r < |s|
  {
    forall k :: l <= k <= r ==> cmp(s[k], x) <= 0
  }

  /** `t` rearranges the elements of `s` from `l` to `r` and leaves the others alone. */
  ghost predicate Rearranged<T>(s: seq<T>, t: seq<T>, l: int, r: int) {
    && |s| == |t| && 0 <= l <= r + 1 <= |s|
    && (forall k :: 0 <= k < |s| && !(l <= k <= r) ==> t[k] == s[k])
    && multiset(t[l..r + 1]) == multiset(s[l..r + 1])
  }

  lemma Split3<T>(s: seq<T>, l: int, l': int, r': int, r: int)
    requires 0 <= l <= l' <= r' + 1 <= r + 1 <= |s|
    ensures s[l..r + 1] == s[l..l'] + s[l'..r' + 1] + s[r' + 1..r + 1]
  {
  }

  lemma Widen<T>(s: seq<T>, t: seq<T>, l: int, l': int, r': int, r: int)
    requires Rearranged(s, t, l', r') && 0 <= l <= l' && r' <= r < |s|
    ensures Rearranged(s, t, l, r)
  {
    Split3(s, l, l', r', r);
    Split3(t, l, l', r', r);
    assert s[l..l'] == t[l..l'] && s[r' + 1..r + 1] == t[r' + 1..r + 1];
  }

  lemma Swapped<T>(s: seq<T>, l: int, r: int, i: int, j: int)
    requires 0 <= l <= i <= j <= r < |s|
    ensures Rearranged(s, s[i := s[j]][j := s[i]], l, r)
  {
    var t := s[i := s[j]][j := s[i]];
    if i < j {
      assert s[i..j + 1] == [s[i]] + s[i + 1..j] + [s[j]];
      assert t[i..j + 1] == [s[j]] + s[i + 1..j] + [s[i]];
    }
    Widen(s, t, l, i, j, r);
  }

  lemma KeepsFrom<T>(s: seq<T>, t: seq<T>, l: int, r: int, x: T, cmp: Cmp<T>)
    requires Rearranged(s, t, l, r) && From(s, l, r, x, cmp)
    ensures From(t, l, r, x, cmp)
  {
    forall k | l <= k <= r ensures cmp(x, t[k]) <= 0 {
      var y := t[l..r + 1][k - l];
      assert y in multiset(s[l..r + 1]);
      var m :| 0 <= m < r + 1 - l && s[l..r + 1][m] == y;
      assert s[l + m] == t[k];
    }
  }

  lemma KeepsUpTo<T>(s: seq<T>, t: seq<T>, l: int, r: int, x: T, cmp: Cmp<T>)
    requires Rearranged(s, t, l, r) && UpTo(s, l, r, x, cmp)
    ensures UpTo(t, l, r, x, cmp)
  {
    forall k | l <= k <= r ensures cmp(t[k], x) <= 0 {
      var y := t[l..r + 1][k - l];
      assert y in multiset(s[l..r + 1]);
      var m :| 0 <= m < r + 1 - l && s[l..r + 1][m] == y;
      assert s[l + m] == t[k];
    }
  }

  method Swap<T>(a: array<T>, i: int, j: int)
    requires 0 <= i <= j < a.Length
    modifies a
    ensures a[..] == old(a[..])[i := old(a[j])][j := old(a[i])]
  {
    a[i], a[j] := a[j], a[i];
  }

  /** Sorted halves around a pivot make a sorted whole. */
  lemma Assemble<T(!new)>(s: seq<T>, l: int, i: int, r: int, cmp: Cmp<T>)
    requires 0 <= l <= i <= r < |s| && Transitive(cmp)
    requires Sorted(s, l, i - 1, cmp) && Sorted(s, i + 1, r, cmp)
    requires UpTo(s, l, i - 1, s[i], cmp) && From(s, i + 1, r, s[i], cmp)
    ensures Sorted(s, l, r, cmp)
  {
    forall x, y | l <= x < y <= r ensures cmp(s[x], s[y]) <= 0 {
      if x < i < y {
        assert Chains(cmp, s[x], s[i], s[y]);
      }
    }
  }

  /** The upward scan stops at the pivot in `r` at the latest. */
  method ScanUp<T(!new)>(a: array<T>, i0: int, r: int, v: T, cmp: Cmp<T>) returns (i: int)
    requires -1 <= i0 < r < a.Length && a[r] == v && Signed(cmp)
    ensures i0 < i <= r && cmp(v, a[i]) <= 0
    ensures forall k :: i0 < k < i ==> cmp(a[k], v) < 0
  {
    i := i0 + 1;
    while cmp(a[i], v) < 0
      invariant i0 < i <= r
      invariant forall k :: i0 < k < i ==> cmp(a[k], v) < 0
      decreases r - i
    {
      i := i + 1;
    }
  }

  /** Some slot below `j0` holds nothing larger than `v`. */
  ghost predicate StopsBelow<T>(s: seq<T>, j0: int, v: T, cmp: Cmp<T>)
    requires j0 <= |s|
  {
    exists k :: 0 <= k < j0 && cmp(s[k], v) <= 0
  }

  /** The downward scan.  It stays inside the array exactly if something stops it; a result of
      -1 stands for its reading below the first slot. */
  method ScanDown<T(!new)>(a: array<T>, j0: int, v: T, cmp: Cmp<T>) returns (j: int)
    requires 0 < j0 <= a.Length
    ensures -1 <= j < j0 && (j >= 0 <==> StopsBelow(a[..], j0, v, cmp))
    ensures j >= 0 ==> cmp(a[j], v) <= 0
    ensures forall k :: j < k < j0 ==> cmp(a[k], v) > 0
  {
    j := j0 - 1;
    while j >= 0 && cmp(a[j], v) > 0
      invariant -1 <= j < j0
      invariant forall k :: j < k < j0 ==> cmp(a[k], v) > 0
      decreases j
    {
      j := j - 1;
    }
    assert j >= 0 ==> cmp(a[..][j], v) <= 0;
  }

  lemma SwapInside<T(!new)>(a0: seq<T>, b: seq<T>, c: seq<T>, l: int, r: int, i: int, j: int, v: T, cmp: Cmp<T>)
    requires Rearranged(a0, b, l, r) && l <= i < j < r
    requires UpTo(b, l, i - 1, v, cmp) && From(b, j + 1, r - 1, v, cmp)
    requires cmp(v, b[i]) <= 0 && cmp(b[j], v) <= 0
    requires c == b[i := b[j]][j := b[i]]
    ensures Rearranged(a0, c, l, r) && c[r] == b[r]
    ensures UpTo(c, l, i, v, cmp) && From(c, j, r - 1, v, cmp)
  {
    Swapped(b, l, r, i, j);
    Compose(a0, b, c, l, r);
  }

  lemma SwapPivot<T(!new)>(a0: seq<T>, b: seq<T>, c: seq<T>, l: int, r: int, i: int, v: T, cmp: Cmp<T>)
    requires Rearranged(a0, b, l, r) && l <= i <= r && b[r] == v
    requires UpTo(b, l, i - 1, v, cmp) && From(b, i, r - 1, v, cmp)
    requires c == b[i := b[r]][r := b[i]]
    ensures Rearranged(a0, c, l, r) && c[i] == v
    ensures UpTo(c, l, i - 1, v, cmp) && From(c, i + 1, r, v, cmp)
  {
    Swapped(b, l, r, i, r);
    Compose(a0, b, c, l, r);
  }

  /** The first slot of the range holds what it held, or an exchange has put something there
      that is no larger than the pivot `v`, while what it held was no smaller. */
  ghost predicate FirstKept<T>(a0: seq<T>, s: seq<T>, l: int, v: T, cmp: Cmp<T>)
    requires 0 <= l < |s| == |a0|
  {
    s[l] == a0[l] || (cmp(s[l], v) <= 0 && cmp(v, a0[l]) <= 0)
  }

  /** What the partitioning loop has established about cells up to `i` and from `j` on. */
  ghost predicate Split<T>(a0: seq<T>, s: seq<T>, l: int, r: int, i: int, j: int, v: T, cmp: Cmp<T>) {
    && Rearranged(a0, s, l, r) && 0 <= l <= r < |s| && l - 1 <= i <= r && j <= r && s[r] == v
    && FirstKept(a0, s, l, v, cmp) && (i < l ==> s[l] == a0[l])
    && UpTo(s, l, i, v, cmp) && From(s, if j < 0 then 0 else j, r - 1, v, cmp)
  }

  /** One round of the partitioning loop; it is the last one when the scans have met.  Once two
      elements have been exchanged, the lower one stops the next downward scan. */
  method Round<T(!new)>(a: array<T>, ghost a0: seq<T>, l: int, r: int, i0: int, j0: int, v: T, cmp: Cmp<T>)
    returns (i: int, j: int)
    requires Signed(cmp) && 0 < j0 && l - 1 <= i0 < j0 <= r < a.Length && Split(a0, a[..], l, r, i0, j0, v, cmp)
    modifies a
    ensures i0 < i && -1 <= j < j0 && (j >= 0 <==> StopsBelow(old(a[..]), j0, v, cmp))
    ensures j < 0 ==> a[..] == old(a[..])
    ensures i < j ==> Split(a0, a[..], l, r, i, j, v, cmp) && StopsBelow(a[..], j, v, cmp)
    ensures i >= j >= 0 ==> i <= r && Split(a0, a[..], l, r, i - 1, i, v, cmp)
  {
    i := ScanUp(a, i0, r, v, cmp);
    j := ScanDown(a, j0, v, cmp);
    if i < j {
      ghost var b := a[..];
      Swap(a, i, j);
      SwapInside(a0, b, a[..], l, r, i, j, v, cmp);
      assert cmp(a[..][i], v) <= 0;
    }
  }

  /** The partitioning loop of _tk_quicksort, up to and including the swap of the pivot into
      its place `i`.  The scans stay inside the array exactly if some slot below the pivot's
      holds nothing larger than the pivot; if not, the first downward scan leaves it. */
  method Partition<T(!new)>(a: array<T>, l: int, r: int, cmp: Cmp<T>) returns (i: int, inside: bool)
    requires 0 <= l < r < a.Length && Signed(cmp)
    modifies a
    ensures inside <==> StopsBelow(old(a[..]), r, old(a[r]), cmp)
    ensures !inside ==> a[..] == old(a[..])
    ensures inside ==> l <= i <= r && Parted(old(a[..]), a[..], l, i, r, cmp)
  {
    var v := a[r];
    ghost var a0 := a[..];
    i, inside := l - 1, true;
    var j := r;
    while i < j
      invariant l - 1 <= i <= r && 0 <= j <= r
      invariant (j == r && i == l - 1 && a[..] == a0) || StopsBelow(a0, r, v, cmp)
      invariant i < j ==> Split(a0, a[..], l, r, i, j, v, cmp) && (j == r || StopsBelow(a[..], j, v, cmp))
      invariant i < j && j == r ==> a[..] == a0
      invariant i >= j ==> l <= i && Split(a0, a[..], l, r, i - 1, i, v, cmp)
      decreases j - i
    {
      i, j := Round(a, a0, l, r, i, j, v, cmp);
      if j < 0 {
        return i, false;
      }
    }
    ghost var b := a[..];
    Swap(a, i, r);
    SwapPivot(a0, b, a[..], l, r, i, v, cmp);
  }

  /** What a partition comes to. */
  ghost predicate Parted<T>(a0: seq<T>, a1: seq<T>, l: int, i: int, r: int, cmp: Cmp<T>) {
    && 0 <= l <= i <= r < |a0| == |a1| && Rearranged(a0, a1, l, r)
    && UpTo(a1, l, i - 1, a1[i], cmp) && From(a1, i + 1, r, a1[i], cmp)
    && (l < i ==> FirstKept(a0, a1, l, a1[i], cmp))
  }

  lemma Compose<T>(s: seq<T>, t: seq<T>, u: seq<T>, l: int, r: int)
    requires Rearranged(s, t, l, r) && Rearranged(t, u, l, r)
    ensures Rearranged(s, u, l, r)
  {
  }

  /** Two slots of the range hold a smallest element of it. */
  ghost predicate Twice<T>(s: seq<T>, l: int, r: int, cmp: Cmp<T>)
    requires 0 <= l && r < |s|
  {
    exists p, q :: l <= p < q <= r && From(s, l, r, s[p], cmp) && From(s, l, r, s[q], cmp)
  }

  /** What keeps the scans of a whole sort inside the array: a sentinel below the range, or,
      with nothing below it, a smallest element in its first slot, or in two slots. */
  ghost predicate Guarded<T>(s: seq<T>, l: int, r: int, cmp: Cmp<T>)
    requires 0 <= l && r < |s|
  {
    l <= r ==> From(s, l, r, if l > 0 then s[l - 1] else s[0], cmp) || (l == 0 && Twice(s, l, r, cmp))
  }

  /** `t` is `s` with the range from `l` to `r` sorted. */
  ghost predicate SortedInto<T>(s: seq<T>, t: seq<T>, l: int, r: int, cmp: Cmp<T>)
    requires 0 <= l && r < |t|
  {
    Rearranged(s, t, l, r) && Sorted(t, l, r, cmp)
  }

  /** _tk_quicksort, for any range.  `inside` says whether all scans stayed in the array. */
  method Quicksort<T(!new)>(a: array<T>, l: int, r: int, cmp: Cmp<T>) returns (inside: bool)
    requires 0 <= l <= r + 1 <= a.Length && TotalPreorder(cmp)
    modifies a
    ensures inside ==> SortedInto(old(a[..]), a[..], l, r, cmp)
    ensures old(Guarded(a[..], l, r, cmp)) ==> inside
    ensures l < r && !StopsBelow(old(a[..]), r, old(a[r]), cmp) ==> !inside && a[..] == old(a[..])
    decreases r - l + 1, 1, 0
  {
    if r <= l {
      return true;
    }
    ghost var a0 := a[..];
    var i: int;
    i, inside := Partition(a, l, r, cmp);
    GuardStops(a0, l, r, cmp);
    if inside {
      inside := SortParts(a, a0, l, i, r, cmp);
    }
  }

  /** The two recursive calls. */
  method SortParts<T(!new)>(a: array<T>, ghost a0: seq<T>, l: int, i: int, r: int, cmp: Cmp<T>) returns (inside: bool)
    requires l < r && TotalPreorder(cmp) && Parted(a0, a[..], l, i, r, cmp)
    modifies a
    ensures inside ==> SortedInto(a0, a[..], l, r, cmp)
    ensures Guarded(a0, l, r, cmp) ==> inside
    decreases r - l + 1, 0, 1
  {
    ghost var a1 := a[..];
    GuardPasses(a0, a1, l, i, r, cmp);
    inside := Quicksort(a, l, i - 1, cmp);
    if inside {
      LowerSorted(a0, a1, a[..], l, i, r, cmp);
      SortAbove(a, a0, l, i, r, cmp);
    }
  }

  /** The second of them: the pivot is the sentinel of the part above it. */
  method SortAbove<T(!new)>(a: array<T>, ghost a0: seq<T>, l: int, i: int, r: int, cmp: Cmp<T>)
    requires l < r && TotalPreorder(cmp) && HalfSorted(a0, a[..], l, i, r, cmp)
    modifies a
    ensures SortedInto(a0, a[..], l, r, cmp)
    decreases r - l + 1, 0, 0
  {
    ghost var a2 := a[..];
    var _ := Quicksort(a, i + 1, r, cmp);
    UpperSorted(a0, a2, a[..], l, i, r, cmp);
  }

  /** The part below the pivot is sorted, and the pivot parts it from the part above. */
  ghost predicate HalfSorted<T>(a0: seq<T>, a2: seq<T>, l: int, i: int, r: int, cmp: Cmp<T>) {
    && 0 <= l <= i <= r < |a0| == |a2| && Rearranged(a0, a2, l, r) && Sorted(a2, l, i - 1, cmp)
    && UpTo(a2, l, i - 1, a2[i], cmp) && From(a2, i + 1, r, a2[i], cmp)
  }

  lemma LowerSorted<T>(a0: seq<T>, a1: seq<T>, a2: seq<T>, l: int, i: int, r: int, cmp: Cmp<T>)
    requires |a2| == |a1| && Parted(a0, a1, l, i, r, cmp) && SortedInto(a1, a2, l, i - 1, cmp)
    ensures HalfSorted(a0, a2, l, i, r, cmp)
  {
    KeepsUpTo(a1, a2, l, i - 1, a1[i], cmp);
    Widen(a1, a2, l, l, i - 1, r);
    Compose(a0, a1, a2, l, r);
  }

  /** Two sorted parts around the pivot make the range sorted. */
  lemma UpperSorted<T(!new)>(a0: seq<T>, a2: seq<T>, a3: seq<T>, l: int, i: int, r: int, cmp: Cmp<T>)
    requires |a3| == |a2| && Transitive(cmp) && HalfSorted(a0, a2, l, i, r, cmp)
    requires SortedInto(a2, a3, i + 1, r, cmp)
    ensures SortedInto(a0, a3, l, r, cmp)
  {
    KeepsFrom(a2, a3, i + 1, r, a2[i], cmp);
    Widen(a2, a3, l, i + 1, r, r);
    Compose(a0, a2, a3, l, r);
    Assemble(a3, l, i, r, cmp);
  }

  lemma TwoOf<T>(s: seq<T>, x: T) returns (p: nat, q: nat)
    requires multiset(s)[x] >= 2
    ensures p < q < |s| && s[p] == s[q] == x
  {
    assert x in multiset(s);
    var k :| 0 <= k < |s| && s[k] == x;
    assert s == s[..k] + [x] + s[k + 1..];
    if x in multiset(s[..k]) {
      p :| 0 <= p < k && s[..k][p] == x;
      q := k;
    } else {
      var m :| 0 <= m < |s| - k - 1 && s[k + 1..][m] == x;
      p, q := k, k + 1 + m;
    }
  }

  lemma TwoThere<T>(s: seq<T>, p: nat, q: nat)
    requires p < q < |s| && s[p] == s[q]
    ensures multiset(s)[s[p]] >= 2
  {
    assert s == s[..q] + [s[q]] + s[q + 1..];
    assert s[..q][p] == s[p] && s[p] in multiset(s[..q]);
  }

  /** What two slots hold is in two slots after a rearrangement. */
  lemma TwoPlaces<T>(s: seq<T>, t: seq<T>, p: nat, q: nat) returns (p': nat, q': nat)
    requires multiset(s) == multiset(t) && p < q < |s|
    ensures p' < |t| && q' < |t| && p' != q' && t[p'] == s[p] && t[q'] == s[q]
  {
    if s[p] == s[q] {
      TwoThere(s, p, q);
      p', q' := TwoOf(t, s[p]);
    } else {
      assert s[p] in multiset(t) && s[q] in multiset(t);
      p' :| 0 <= p' < |t| && t[p'] == s[p];
      q' :| 0 <= q' < |t| && t[q'] == s[q];
    }
  }

  lemma TwiceKept<T>(s: seq<T>, t: seq<T>, r: int, cmp: Cmp<T>)
    requires Rearranged(s, t, 0, r) && Twice(s, 0, r, cmp)
    ensures Twice(t, 0, r, cmp)
  {
    var p, q :| 0 <= p < q <= r && From(s, 0, r, s[p], cmp) && From(s, 0, r, s[q], cmp);
    var p', q' := TwoPlaces(s[0..r + 1], t[0..r + 1], p, q);
    KeepsFrom(s, t, 0, r, s[p], cmp);
    KeepsFrom(s, t, 0, r, s[q], cmp);
    assert t[p'] == s[p] && t[q'] == s[q];
    var lo, hi := if p' < q' then p' else q', if p' < q' then q' else p';
    assert From(t, 0, r, t[lo], cmp) && From(t, 0, r, t[hi], cmp);
  }

  /** If a smallest element is not below the pivot, everything below the pivot is smallest. */
  lemma TwicePasses<T(!new)>(a1: seq<T>, i: int, r: int, cmp: Cmp<T>)
    requires 0 < i <= r < |a1| && Transitive(cmp) && Twice(a1, 0, r, cmp)
    requires UpTo(a1, 0, i - 1, a1[i], cmp) && From(a1, i + 1, r, a1[i], cmp)
    ensures From(a1, 0, i - 1, a1[0], cmp) || Twice(a1, 0, i - 1, cmp)
  {
    var p, q :| 0 <= p < q <= r && From(a1, 0, r, a1[p], cmp) && From(a1, 0, r, a1[q], cmp);
    if q < i {
      assert From(a1, 0, i - 1, a1[p], cmp) && From(a1, 0, i - 1, a1[q], cmp);
    } else {
      forall k | 0 <= k < i ensures cmp(a1[0], a1[k]) <= 0 {
        assert Chains(cmp, a1[i], a1[q], a1[k]) && Chains(cmp, a1[0], a1[i], a1[k]);
      }
    }
  }

  /** A smallest element in the first slot stays there, or all below the pivot are smallest. */
  lemma FirstPasses<T(!new)>(a0: seq<T>, a1: seq<T>, i: int, r: int, cmp: Cmp<T>)
    requires 0 < i && Transitive(cmp) && Parted(a0, a1, 0, i, r, cmp) && From(a0, 0, r, a0[0], cmp)
    ensures From(a1, 0, i - 1, a1[0], cmp)
  {
    KeepsFrom(a0, a1, 0, r, a0[0], cmp);
    if a1[0] != a0[0] {
      forall k | 0 <= k < i ensures cmp(a1[0], a1[k]) <= 0 {
        assert Chains(cmp, a1[i], a0[0], a1[k]) && Chains(cmp, a1[0], a1[i], a1[k]);
      }
    }
  }

  /** The guard passes on to the part below the pivot. */
  lemma GuardPasses<T(!new)>(a0: seq<T>, a1: seq<T>, l: int, i: int, r: int, cmp: Cmp<T>)
    requires l < r && Transitive(cmp) && Parted(a0, a1, l, i, r, cmp)
    ensures Guarded(a0, l, r, cmp) ==> Guarded(a1, l, i - 1, cmp)
  {
    if Guarded(a0, l, r, cmp) && l < i {
      if l > 0 {
        KeepsFrom(a0, a1, l, r, a0[l - 1], cmp);
      } else if From(a0, 0, r, a0[0], cmp) {
        FirstPasses(a0, a1, i, r, cmp);
      } else {
        TwiceKept(a0, a1, r, cmp);
        TwicePasses(a1, i, r, cmp);
      }
    }
  }

  lemma GuardStops<T(!new)>(s: seq<T>, l: int, r: int, cmp: Cmp<T>)
    requires 0 <= l < r < |s|
    ensures Guarded(s, l, r, cmp) ==> StopsBelow(s, r, s[r], cmp)
  {
    if Guarded(s, l, r, cmp) {
      if From(s, l, r, if l > 0 then s[l - 1] else s[0], cmp) {
        assert cmp(s[if l > 0 then l - 1 else 0], s[r]) <= 0;
      } else {
        var p, q :| 0 <= p < q <= r && From(s, l, r, s[p], cmp) && From(s, l, r, s[q], cmp);
        assert cmp(s[p], s[r]) <= 0;
      }
    }
  }

  /** The qsort entry point.  There is no slot below the range, so the array is in order
      afterwards only if the scans found something to stop at; a smallest element in the first
      slot is enough, and so is one that occurs twice.  A last element smaller than all others
      sends the first scan out of the array. */
  method QsortEntry<T(!new)>(a: array<T>, cmp: Cmp<T>) returns (inside: bool)
    requires TotalPreorder(cmp)
    modifies a
    ensures inside ==> SortedInto(old(a[..]), a[..], 0, a.Length - 1, cmp)
    ensures old(Guarded(a[..], 0, a.Length - 1, cmp)) ==> inside
    ensures a.Length > 1 && !StopsBelow(old(a[..]), a.Length - 1, old(a[a.Length - 1]), cmp) ==>
      !inside && a[..] == old(a[..])
  {
    inside := Quicksort(a, 0, a.Length - 1, cmp);
  }

  /** Two elements in the wrong order are enough. */
  method QsortLeavesArray() returns (inside: bool)
    ensures !inside
  {
    var a := new int[][2, 1];
    var cmp := (x: int, y: int) => x - y;
    assert forall x, y, z :: Chains(cmp, x, y, z);
    inside := QsortEntry(a, cmp);
  }

  /** Where `x` belongs: everything before is smaller, everything from there on is larger. */
  ghost predicate IsInsertionPoint<T>(s: seq<T>, l: int, r: int, x: T, p: int, cmp: Cmp<T>)
    requires 0 <= l && r < |s|
  {
    && l <= p <= r + 1
    && (forall k :: l <= k < p ==> cmp(s[k], x) < 0)
    && (forall k :: p <= k <= r ==> cmp(x, s[k]) < 0)
  }

  lemma Discard<T(!new)>(s: seq<T>, lo: int, hi: int, x: T, m: int, cmp: Cmp<T>)
    requires 0 <= lo <= m <= hi < |s| && TotalPreorder(cmp) && Sorted(s, lo, hi, cmp)
    ensures cmp(x, s[m]) < 0 ==> forall k :: m <= k <= hi ==> cmp(x, s[k]) < 0
    ensures cmp(x, s[m]) > 0 ==> forall k :: lo <= k <= m ==> cmp(s[k], x) < 0
  {
    forall k | lo <= k <= hi
      ensures cmp(x, s[m]) < 0 && m <= k ==> cmp(x, s[k]) < 0
      ensures cmp(x, s[m]) > 0 && k <= m ==> cmp(s[k], x) < 0
    {
      StrictStep(x, s[m], s[k], cmp);
    }
  }

  lemma StrictStep<T(!new)>(x: T, y: T, z: T, cmp: Cmp<T>)
    requires TotalPreorder(cmp)
    ensures cmp(x, y) < 0 && cmp(y, z) <= 0 ==> cmp(x, z) < 0
    ensures cmp(x, y) > 0 && cmp(z, y) <= 0 ==> cmp(z, x) < 0
  {
    assert Chains(cmp, y, z, x) && Chains(cmp, x, z, y);
  }

  /** _tk_bsearch.  A non-negative result is the position of an equal element; a negative one
      encodes the place where the key would go. */
  method Bsearch<T(!new)>(x: T, a: array<T>, lo: int, hi: int, cmp: Cmp<T>) returns (rc: int)
    requires 0 <= lo <= hi < a.Length && TotalPreorder(cmp) && Sorted(a[..], lo, hi, cmp)
    ensures rc >= 0 ==> lo <= rc <= hi && cmp(x, a[rc]) == 0
    ensures rc < 0 ==> IsInsertionPoint(a[..], lo, hi, x, -rc - 1, cmp)
  {
    var l, r := lo, hi;
    var m, c := 0, 0;
    ghost var s := a[..];
    while r >= l
      invariant lo <= l && r <= hi && l <= r + 1
      invariant forall k :: lo <= k < l ==> cmp(s[k], x) < 0
      invariant forall k :: r < k <= hi ==> cmp(x, s[k]) < 0
      invariant (l == lo && r == hi) || (c < 0 && r == m - 1) || (c > 0 && l == m + 1)
      decreases r - l
    {
      m := (r + l) / 2;
      c := cmp(x, a[m]);
      Discard(s, lo, hi, x, m, cmp);
      if c == 0 {
        return m;
      }
      if c < 0 {
        r := m - 1;
      } else {
        l := m + 1;
      }
    }
    if c < 0 {
      rc := -1 * m - 1;
    } else {
      rc := -1 * m - 2;
    }
  }

  /** A missing key has one place only, so the negative result says exactly where it goes;
      and then no element equals the key. */
  lemma InsertionPointUnique<T(!new)>(s: seq<T>, l: int, r: int, x: T, p: int, q: int, cmp: Cmp<T>)
    requires 0 <= l && r < |s| && Signed(cmp)
    requires IsInsertionPoint(s, l, r, x, p, cmp) && IsInsertionPoint(s, l, r, x, q, cmp)
    ensures p == q && forall k :: l <= k <= r ==> cmp(x, s[k]) != 0
  {
    assert p <= r ==> (p < q <==> cmp(s[p], x) < 0);
    assert q <= r ==> (q < p <==> cmp(s[q], x) < 0);
  }
}
