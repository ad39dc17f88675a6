/** Up-time.

    Milliseconds are counted in two 32-bit words and converted to seconds and nanoseconds
    with 32-bit arithmetic only; WORD is the wrap of that arithmetic. */
module Uptime {

  const WORD: nat := 0x1_0000_0000

  /** WORD milliseconds are FACTOR seconds and FFRACT milliseconds. */
  const FACTOR: nat := 0x418937
  const FFRACT: nat := 0x128

  /** The 32 bits of `x` that are kept. */
  function Wrap(x: nat): (r: nat)
    ensures r == x % WORD
  {
    if x < WORD then x else x % WORD
  }

  /** The milliseconds two words stand for. */
  function Millis(mackey: nat, mickey: nat): nat {
    mackey * WORD + mickey
  }

  datatype Timespec = Timespec(sec: nat, nsec: nat)

  /** The nanoseconds a time stamp stands for. */
  function Nanos(t: Timespec): nat {
    t.sec * 1_000_000_000 + t.nsec
  }

  class Tick {
    var mackey: nat
    var mickey: nat

    ghost predicate Valid()
      reads this
    {
      mackey < WORD && mickey < WORD
    }

    constructor ()
      ensures Valid() && mackey == mickey == 0
    {
      mackey, mickey := 0, 0;
    }

    /** _tk_tick_advance_mS: a carry shows in the lower word having become smaller. */
    method AdvanceMs(advance: nat)
      requires Valid() && advance < WORD
      modifies this
      ensures Valid()
      ensures (mackey, mickey) == Advanced((old(mackey), old(mickey)), advance)
      ensures var t := old(Millis(mackey, mickey)) + advance;
        Millis(mackey, mickey) == if t < WORD * WORD then t else t - WORD * WORD
    {
      Carry(mackey, mickey, advance);
      if Wrap(mickey + advance) < mickey {
        mickey := Wrap(mickey + advance);
        mackey := Wrap(mackey + 1);
      } else {
        mickey := Wrap(mickey + advance);
      }
    }

    /** getnanouptime, with the time since the tick in nanoseconds as `sub`. */
    method GetNanoUptime(sub: nat) returns (t: Timespec)
      requires Valid() && sub < 1_000_000
      ensures t.nsec < 1_000_000_000 && t.sec < WORD
      ensures Nanos(t) == Millis(mackey % 1000, mickey) * 1_000_000 + sub
    {
      var m := mackey % 1000;
      NothingWraps(m, mickey, sub);
      var frac := Wrap(Wrap(m * FACTOR) + Wrap(m * FFRACT) / 1000);
      var rest := Wrap(m * FFRACT) % 1000;
      var lss := Wrap(mickey / 1000 + frac);
      var ns := Wrap(Wrap(mickey % 1000 + rest) * 1_000_000);
      assert frac == FromMackey(m) && lss == mickey / 1000 + FromMackey(m);
      ns := Wrap(ns + sub);
      lss := Wrap(lss + ns / 1_000_000_000);
      ns := ns % 1_000_000_000;
      t := Timespec(lss, ns);
    }
  }

  lemma Carry(mackey: nat, mickey: nat, advance: nat)
    requires mackey < WORD && mickey < WORD && advance < WORD
    ensures Wrap(mickey + advance) < mickey <==> mickey + advance >= WORD
    ensures mickey + advance >= WORD ==> Wrap(mickey + advance) == mickey + advance - WORD
    ensures Wrap(mackey + 1) == if mackey + 1 == WORD then 0 else mackey + 1
  {
  }

  /** The part of the conversion that comes from the upper word. */
  function FromMackey(m: nat): nat {
    m * FACTOR + m * FFRACT / 1000
  }

  /** No intermediate result of the conversion leaves 32 bits, and the sum of seconds, which
      comes within one of the wrap, never gets there. */
  lemma NothingWraps(m: nat, mickey: nat, sub: nat)
    requires m < 1000 && mickey < WORD && sub < 1_000_000
    ensures m * FACTOR < WORD && m * FFRACT < WORD && FromMackey(m) < WORD
    ensures mickey / 1000 + FromMackey(m) < WORD
    ensures (mickey % 1000 + m * FFRACT % 1000) * 1_000_000 + sub < WORD
    ensures var ns := (mickey % 1000 + m * FFRACT % 1000) * 1_000_000 + sub;
      var lss := mickey / 1000 + FromMackey(m) + ns / 1_000_000_000;
      && lss < WORD
      && lss * 1_000_000_000 + ns % 1_000_000_000 == Millis(m, mickey) * 1_000_000 + sub
  {
    var ns := (mickey % 1000 + m * FFRACT % 1000) * 1_000_000 + sub;
    var lss := mickey / 1000 + FromMackey(m) + ns / 1_000_000_000;
    assert m * WORD == 1000 * FromMackey(m) + m * FFRACT % 1000;
    assert lss * 1_000_000_000 + ns % 1_000_000_000 == Millis(m, mickey) * 1_000_000 + sub;
    assert Millis(m, mickey) <= 1000 * WORD - 1;
  }

  /** The two words after one advance, and whether the upper one wrapped. */
  function Advanced(c: (nat, nat), advance: nat): (nat, nat) {
    if Wrap(c.1 + advance) < c.1 then (Wrap(c.0 + 1), Wrap(c.1 + advance))
    else (c.0, Wrap(c.1 + advance))
  }

  predicate Laps(c: (nat, nat), advance: nat) {
    c.0 + 1 == WORD && c.1 + advance >= WORD
  }

  lemma AdvancedAdds(c: (nat, nat), advance: nat)
    requires c.0 < WORD && c.1 < WORD && advance < WORD
    ensures Advanced(c, advance).0 < WORD && Advanced(c, advance).1 < WORD
    ensures Millis(c.0, c.1) + advance ==
      (if Laps(c, advance) then WORD * WORD else 0) + Millis(Advanced(c, advance).0, Advanced(c, advance).1)
  {
    Carry(c.0, c.1, advance);
  }

  /** After a run of advances from start-up: the two words, the total, and how often the
      upper word wrapped. */
  function After(advances: seq<nat>): (nat, nat) {
    if advances == [] then (0, 0)
    else Advanced(After(advances[..|advances| - 1]), advances[|advances| - 1])
  }

  function Total(advances: seq<nat>): nat {
    if advances == [] then 0 else Total(advances[..|advances| - 1]) + advances[|advances| - 1]
  }

  function LapCount(advances: seq<nat>): nat {
    if advances == [] then 0
    else
      var n := |advances| - 1;
      LapCount(advances[..n]) + if Laps(After(advances[..n]), advances[n]) then 1 else 0
  }

  lemma {:induction false} AfterIsTotal(advances: seq<nat>)
    requires forall i :: 0 <= i < |advances| ==> advances[i] < WORD
    ensures After(advances).0 < WORD && After(advances).1 < WORD
    ensures Total(advances) ==
      LapCount(advances) * (WORD * WORD) + Millis(After(advances).0, After(advances).1)
  {
    if advances != [] {
      var n := |advances| - 1;
      AfterIsTotal(advances[..n]);
      AdvancedAdds(After(advances[..n]), advances[n]);
    }
  }

  lemma ConvertedIff(laps: nat, mackey: nat, mickey: nat)
    requires mackey < WORD && mickey < WORD
    ensures var total := laps * (WORD * WORD) + Millis(mackey, mickey);
      Millis(mackey % 1000, mickey) == total <==> total < 1000 * WORD
  {
    if laps == 0 {
      assert mackey < 1000 ==> mackey % 1000 == mackey;
    } else {
      assert laps * (WORD * WORD) >= WORD * WORD;
    }
  }

  /** Over whole runs: what the conversion yields is the up-time exactly as long as the
      up-time has fewer than 1000 * 2^32 milliseconds. */
  lemma ExactIff(advances: seq<nat>, sub: nat, t: Timespec)
    requires forall i :: 0 <= i < |advances| ==> advances[i] < WORD
    requires Nanos(t) == Millis(After(advances).0 % 1000, After(advances).1) * 1_000_000 + sub
    ensures Nanos(t) == Total(advances) * 1_000_000 + sub <==> Total(advances) < 1000 * WORD
  {
    AfterIsTotal(advances);
    ConvertedIff(LapCount(advances), After(advances).0, After(advances).1);
  }

  /** The bound is tight: it is where the seconds stop fitting in 32 bits at all. */
  lemma TightBound(total: nat, sub: nat)
    requires sub < 1_000_000
    ensures (total * 1_000_000 + sub) / 1_000_000_000 < WORD <==> total < 1000 * WORD
  {
  }
}
