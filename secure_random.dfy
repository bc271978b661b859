/**
 * getCryptoRandomInt: a uniform integer in [0, max) by rejection sampling
 * over 31-bit values taken from a 32-bit secure random word.
 */
module SecureRandom {
  import opened Wrappers

  /** 0x7fffffff, the largest 31-bit value and the sampling range's top. */
  const MAX31: int := 0x7fff_ffff
  /** Number.MAX_SAFE_INTEGER, 2^53 - 1. */
  const MAX_SAFE_INTEGER: int := 0x1f_ffff_ffff_ffff

  datatype RandomError = InvalidMaxValue

  /** `word & 0x7fffffff`: the low 31 bits, so the sample is never negative. */
  function Mask31(word: bv32): (s: int)
    ensures 0 <= s <= 0x7fff_ffff
  {
    var low := word & 0x7fff_ffff;
    assert low < 0x8000_0000;
    low as bv31 as int
  }

  /** `Math.floor(0x7fffffff / max) * max`: samples below it are kept. */
  function Bound(max: int): (b: int)
    requires max > 0
    ensures 0 <= b <= MAX31
    ensures MAX31 - b < max
    ensures b % max == 0
  {
    var q := MAX31 / max;
    assert MAX31 == q * max + MAX31 % max;
    DivModUnique(q * max, max, q, 0);
    q * max
  }

  predicate Accepted(sample: int, max: int) {
    max > 0 && sample < Bound(max)
  }

  /** The values the crypto branch's validation lets through, as the source writes it. */
  predicate ValidMaxAsWritten(max: int) {
    !(max <= 0 || max > MAX_SAFE_INTEGER)
  }

  /** The values the validation should let through: those the sampling loop can accept. */
  predicate ValidMax(max: int) {
    !(max <= 0 || max > MAX31)
  }

  /** Some 31-bit sample is accepted exactly when max is in [1, 0x7fffffff]. */
  lemma AcceptanceIsPossible(max: int)
    ensures (exists s :: 0 <= s <= MAX31 && Accepted(s, max)) <==> ValidMax(max)
  {
    if ValidMax(max) {
      assert Accepted(0, max);
    }
  }

  /**
   * The validation as written lets max = 2^31 through, but then the bound is
   * 0 and every sample is rejected: the do-while loop never exits.
   */
  lemma AsWrittenAdmitsEndlessLoop()
    ensures ValidMaxAsWritten(0x8000_0000)
    ensures forall word: bv32 :: !Accepted(Mask31(word), 0x8000_0000)
  {
  }

  /** Counts the values in [0, q*m) that leave remainder r: exactly q. */
  lemma {:induction false} ResidueCount(q: nat, m: int, r: int)
    requires m >= 1 && 0 <= r < m
    ensures |set s | 0 <= s < q * m && s % m == r| == q
  {
    if q > 0 {
      ResidueCount(q - 1, m, r);
      var lo := (q - 1) * m;
      MulDistrib(q, 1, m);
      assert q * m == lo + m;
      ResidueBlock(lo, q - 1, m, r);
    } else {
      assert (set s | 0 <= s < q * m && s % m == r) == {};
    }
  }

  /** One more block of m values adds exactly one value with remainder r: lo + r. */
  lemma ResidueBlock(lo: int, k: nat, m: int, r: int)
    requires m >= 1 && 0 <= r < m && lo == k * m
    ensures (set s | 0 <= s < lo + m && s % m == r) == (set s | 0 <= s < lo && s % m == r) + {lo + r}
    ensures lo + r !in (set s | 0 <= s < lo && s % m == r)
  {
    assert (lo + r) % m == r by { ModuloOfMultiplePlus(k, m, r); }
    forall s | 0 <= s < lo + m && s % m == r && s >= lo ensures s == lo + r {
      OnlyResidueInBlock(k, m, r, s);
    }
  }

  lemma ModuloOfMultiplePlus(k: nat, m: int, r: int)
    requires m >= 1 && 0 <= r < m
    ensures (k * m + r) % m == r && (k * m + r) / m == k
  {
    DivModUnique(k * m + r, m, k, r);
  }

  lemma OnlyResidueInBlock(k: nat, m: int, r: int, s: int)
    requires m >= 1 && 0 <= r < m
    requires k * m <= s < k * m + m && s % m == r
    ensures s == k * m + r
  {
    var d := s / m;
    assert s == d * m + r;
    MulDistrib(k, d, m);
    MulDistrib(d, k, m);
    if d < k {
      MulAtLeast(k - d, m);
    } else if d > k {
      MulAtLeast(d - k, m);
    }
  }

  /** Euclidean division is unique: quotient and remainder fix each other. */
  lemma DivModUnique(a: int, m: int, q: int, r: int)
    requires m > 0 && 0 <= r < m && a == q * m + r
    ensures a / m == q && a % m == r
  {
    var q' := a / m;
    var r' := a % m;
    assert a == q' * m + r';
    MulDistrib(q, q', m);
    MulDistrib(q', q, m);
    if q' < q {
      MulAtLeast(q - q', m);
    } else if q' > q {
      MulAtLeast(q' - q, m);
    }
  }

  lemma MulAtLeast(x: int, m: int)
    requires x >= 1 && m > 0
    ensures x * m >= m
  {
  }

  lemma MulDistrib(a: int, b: int, m: int)
    ensures (a - b) * m == a * m - b * m
  {
  }

  /**
   * No modulo bias: among the accepted samples every result r in [0, max)
   * has exactly floor(0x7fffffff / max) preimages.
   */
  lemma NoModuloBias(max: int, r: int)
    requires ValidMax(max) && 0 <= r < max
    ensures |set s | 0 <= s <= MAX31 && Accepted(s, max) && s % max == r| == MAX31 / max
  {
    var kept := set s | 0 <= s <= MAX31 && Accepted(s, max) && s % max == r;
    assert kept == set s | 0 <= s < (MAX31 / max) * max && s % max == r;
    ResidueCount(MAX31 / max, max, r);
  }

  /**
   * The stream of 32-bit words that `crypto.getRandomValues` writes into the
   * one-element buffer, one word per call; `drawn` counts the calls so far.
   */
  class Entropy {
    const words: nat -> bv32
    var drawn: nat

    constructor (words: nat -> bv32)
      ensures this.words == words && drawn == 0
    {
      this.words := words;
      drawn := 0;
    }

    /** From position `from` on, some word gives an accepted sample for `max`. */
    ghost predicate AcceptedFrom(max: int, from: nat) {
      exists k: nat :: from <= k && Accepted(Mask31(words(k)), max)
    }

    /** The secure source is fair: for every valid max an accepted word always comes. */
    ghost predicate Fair() {
      forall max: int, from: nat :: ValidMax(max) ==> AcceptedFrom(max, from)
    }

    /** `crypto.getRandomValues(array)` on a Uint32Array(1). */
    method Fill(buffer: array<bv32>)
      requires buffer.Length == 1
      modifies this, buffer
      ensures buffer[0] == words(old(drawn))
      ensures drawn == old(drawn) + 1
    {
      buffer[0] := words(drawn);
      drawn := drawn + 1;
    }
  }

  /**
   * getCryptoRandomInt, on the secure branch, with the corrected validation:
   * the error comes before any draw; otherwise words are drawn until one is
   * accepted, and the result is that sample modulo max.
   */
  method CryptoRandomInt(e: Entropy, max: int) returns (r: Result<int, RandomError>)
    requires e.Fair()
    modifies e
    ensures r.Err? <==> !ValidMax(max)
    ensures r.Err? ==> e.drawn == old(e.drawn)
    ensures r.Ok? ==> 0 <= r.value < max
    ensures r.Ok? ==> old(e.drawn) < e.drawn
    ensures r.Ok? ==> Accepted(Mask31(e.words(e.drawn - 1)), max)
    ensures r.Ok? ==> r.value == Mask31(e.words(e.drawn - 1)) % max
    ensures r.Ok? ==> forall k :: old(e.drawn) <= k < e.drawn - 1 ==> !Accepted(Mask31(e.words(k)), max)
  {
    if max <= 0 || max > MAX31 {
      return Err(InvalidMaxValue);
    }
    assert e.AcceptedFrom(max, e.drawn);
    ghost var k: nat :| e.drawn <= k && Accepted(Mask31(e.words(k)), max);
    var buffer := new bv32[1];
    var rand := MAX31;
    var done := false;
    while !done
      invariant e.drawn <= k + 1
      invariant !done ==> e.drawn <= k
      invariant done ==> old(e.drawn) < e.drawn && rand == Mask31(e.words(e.drawn - 1)) && Accepted(rand, max)
      invariant forall j :: old(e.drawn) <= j < e.drawn - (if done then 1 else 0) ==> !Accepted(Mask31(e.words(j)), max)
      invariant old(e.drawn) <= e.drawn
      decreases k + 1 - e.drawn
    {
      e.Fill(buffer);
      rand := Mask31(buffer[0]);
      done := rand < Bound(max);
    }
    r := Ok(rand % max);
  }
}
