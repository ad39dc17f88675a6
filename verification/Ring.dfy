/** Circular buffers with an out-cursor and an in-cursor.

    A ring over a buffer `a` holds the slots from `out` up to, not including, `inn`, walking
    upwards and wrapping at the end.  Equal cursors mean the ring is empty. */
module Ring {
  import opened Tcbs

  /** One step of a wrapping cursor: `i++, i %= n`. */
  function Inc(i: nat, n: nat): (r: nat)
    requires i < n
    ensures r < n && r == if i + 1 == n then 0 else i + 1
  {
    (i + 1) % n
  }

  const UINT_MAX: nat := 0xFFFF_FFFF

  /** One step back: `i--`, where the unsigned wrap below zero is caught by comparing
      with the size of the ring. */
  function Dec(i: nat, n: nat): (r: nat)
    requires i < n < UINT_MAX
    ensures r < n && r == if i == 0 then n - 1 else i - 1
  {
    var d := if i == 0 then UINT_MAX else i - 1;
    if d > n then n - 1 else d
  }

  function Len(out: nat, inn: nat, n: nat): (r: nat)
    requires out < n && inn < n
    ensures r < n && (r == 0 <==> out == inn)
  {
    if out <= inn then inn - out else n - out + inn
  }

  /** The slot `k` steps after `out`. */
  function Slot(out: nat, k: nat, n: nat): (r: nat)
    requires out < n && k < n
    ensures r < n
  {
    if out + k < n then out + k else out + k - n
  }

  /** Walking the ring with a cursor: the next slot, and when the in-cursor is reached. */
  lemma Walk(out: nat, inn: nat, k: nat, n: nat)
    requires out < n && inn < n && k <= Len(out, inn, n)
    ensures Slot(out, k, n) == inn <==> k == Len(out, inn, n)
    ensures Len(out, Slot(out, k, n), n) == k
    ensures k < Len(out, inn, n) ==> Inc(Slot(out, k, n), n) == Slot(out, k + 1, n)
  {
  }

  /** The contents of the ring, oldest first. */
  function Contents<T>(a: seq<T>, out: nat, inn: nat): (r: seq<T>)
    requires out < |a| && inn < |a|
    ensures |r| == Len(out, inn, |a|)
  {
    if out <= inn then a[out..inn] else a[out..] + a[..inn]
  }

  /** `w` is what the ring holds, step by step. */
  ghost predicate Holds<T>(a: seq<T>, out: nat, inn: nat, w: seq<T>) {
    && out < |a| && inn < |a| && |w| == Len(out, inn, |a|)
    && forall k :: 0 <= k < |w| ==> w[k] == a[Slot(out, k, |a|)]
  }

  lemma HoldsContents<T>(a: seq<T>, out: nat, inn: nat, w: seq<T>)
    requires out < |a| && inn < |a|
    ensures Holds(a, out, inn, w) <==> Contents(a, out, inn) == w
  {
    var c := Contents(a, out, inn);
    if Holds(a, out, inn, w) {
      forall k | 0 <= k < |w| ensures c[k] == w[k] {
      }
    }
  }

  /** Storing at the in-cursor and advancing it appends. */
  lemma Append<T>(a: seq<T>, out: nat, inn: nat, w: seq<T>, x: T)
    requires Holds(a, out, inn, w) && |w| < |a| - 1
    ensures Holds(a[inn := x], out, Inc(inn, |a|), w + [x])
  {
  }

  /** Advancing the out-cursor removes the oldest element. */
  lemma PopHead<T>(a: seq<T>, b: seq<T>, out: nat, inn: nat, w: seq<T>)
    requires Holds(a, out, inn, w) && |a| == |b| && out != inn
    requires forall s :: 0 <= s < |a| && s != out ==> a[s] == b[s]
    ensures Holds(b, Inc(out, |a|), inn, w[1..])
  {
    forall k | 0 <= k < |w| - 1 ensures w[1..][k] == b[Slot(Inc(out, |a|), k, |a|)] {
      assert w[k + 1] == a[Slot(out, k + 1, |a|)];
    }
  }

  /** Stepping the in-cursor back removes the newest element. */
  lemma DropLast<T>(a: seq<T>, b: seq<T>, out: nat, inn: nat, w: seq<T>)
    requires Holds(a, out, inn, w) && |a| == |b| < UINT_MAX && out != inn
    requires forall s :: 0 <= s < |a| && s != Dec(inn, |a|) ==> a[s] == b[s]
    ensures Holds(b, out, Dec(inn, |a|), w[..|w| - 1])
  {
  }
}
