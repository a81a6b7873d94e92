/**
 * The times of accounting records: a number of 16 bits with a base-8 exponent of
 * three bits and a fraction of thirteen.
 */
module Accounting {
  const FRACTION: int := 8192

  function Pow8(e: nat): (p: int)
    ensures p >= 1
  {
    if e == 0 then 1 else 8 * Pow8(e - 1)
  }

  /** How often t is divided by 8 before it is a fraction. */
  function Exponent(t: nat): nat {
    if t < FRACTION then 0 else 1 + Exponent(t / 8)
  }

  /** What is left of it. */
  function Cut(t: nat): (f: nat)
    ensures f < FRACTION
  {
    if t < FRACTION then t else Cut(t / 8)
  }

  /** Whether half of the last place or more was cut off. */
  predicate RoundsUp(t: nat) {
    t >= FRACTION && if t / 8 < FRACTION then t % 8 >= 4 else RoundsUp(t / 8)
  }

  /** The fraction when it has been rounded: one more than fits, at most. */
  function Rounded(t: nat): (f: nat)
    ensures f <= FRACTION
  {
    Cut(t) + if RoundsUp(t) then 1 else 0
  }

  function Compressed(t: nat): nat {
    if Rounded(t) == FRACTION then FRACTION * (Exponent(t) + 1) + FRACTION / 8 else FRACTION * Exponent(t) + Rounded(t)
  }

  /** The time that a record stands for. */
  function Decoded(c: nat): int {
    c % FRACTION * Pow8(c / FRACTION)
  }

  method Compress(time: nat) returns (c: nat)
    ensures c == Compressed(time)
  {
    var t: nat, exp: nat, round := time, 0, false;
    while t >= FRACTION
      invariant Exponent(time) == exp + Exponent(t) && Cut(time) == Cut(t)
      invariant RoundsUp(time) == if t < FRACTION then round else RoundsUp(t)
    {
      exp := exp + 1;
      round := t % 8 >= 4;
      t := t / 8;
    }
    if round {
      t := t + 1;
      if t >= FRACTION {
        t := t / 8;
        exp := exp + 1;
      }
    }
    c := FRACTION * exp + t;
  }

  /** t lies in the first or second half of its last place, as the rounding says. */
  lemma {:induction false} Halves(t: nat)
    requires t >= FRACTION
    ensures var p := Pow8(Exponent(t));
            && p % 8 == 0
            && Cut(t) * p <= t < Cut(t) * p + p
            && (RoundsUp(t) <==> t >= Cut(t) * p + p / 2)
    ensures Cut(t) >= FRACTION / 8
  {
    if t / 8 >= FRACTION {
      Halves(t / 8);
      Times8(Cut(t), Pow8(Exponent(t / 8)));
    }
  }

  lemma Times8(f: int, q: int)
    ensures f * (8 * q) == 8 * (f * q)
  {
  }

  /** The decoded value differs from the time by half of the last place at most, and not at all below 8192. */
  lemma ErrorBound(t: nat)
    ensures t < FRACTION ==> Compressed(t) == t && Decoded(Compressed(t)) == t
    ensures var p := Pow8(Exponent(t)); -p <= 2 * (Decoded(Compressed(t)) - t) <= p
    ensures Pow8(Exponent(t)) <= Pow8(Compressed(t) / FRACTION)
  {
    DecodedIs(t);
    if t >= FRACTION {
      Halves(t);
      OneMore(Cut(t), Pow8(Exponent(t)));
    }
  }

  lemma DecodedIs(t: nat)
    ensures Decoded(Compressed(t)) == Rounded(t) * Pow8(Exponent(t))
    ensures Pow8(Exponent(t)) <= Pow8(Compressed(t) / FRACTION)
  {
    hide Rounded;
    var e, f := Exponent(t), Rounded(t);
    if f == FRACTION {
      Fields(e + 1, FRACTION / 8);
      assert Pow8(e + 1) == 8 * Pow8(e);
      assert FRACTION / 8 * (8 * Pow8(e)) == FRACTION * Pow8(e);
    } else {
      Fields(e, f);
    }
  }

  lemma Fields(e: nat, f: nat)
    requires f < FRACTION
    ensures (FRACTION * e + f) / FRACTION == e && (FRACTION * e + f) % FRACTION == f
  {
  }

  lemma OneMore(f: int, p: int)
    ensures (f + 1) * p == f * p + p
  {
  }

  /** Any time of 31 bits fits: three bits of exponent and thirteen of fraction. */
  lemma Fits(t: nat)
    requires t < 0x8000_0000
    ensures Compressed(t) < 65536 && Compressed(t) / FRACTION <= 7
  {
    AtMost(t, 6);
  }

  lemma {:induction false} AtMost(t: nat, e: nat)
    requires t < FRACTION * Pow8(e)
    ensures Exponent(t) <= e
  {
    if t >= FRACTION {
      assert e > 0;
      assert t / 8 < FRACTION * Pow8(e - 1);
      AtMost(t / 8, e - 1);
    }
  }

  /** A longer time never compresses to less. */
  lemma Monotone(s: nat, t: nat)
    requires s <= t
    ensures Compressed(s) <= Compressed(t)
  {
    Parts(s, t);
    if Exponent(s) < Exponent(t) {
      Halves(t);
    }
  }

  lemma {:induction false} Parts(s: nat, t: nat)
    requires s <= t
    ensures Exponent(s) <= Exponent(t)
    ensures Exponent(s) == Exponent(t) ==> Rounded(s) <= Rounded(t)
  {
    if s >= FRACTION {
      Parts(s / 8, t / 8);
    }
  }
}
