/**
 The SplitMix64 generator of `rustdv-sim/src/rng.rs`.

 A `u64` is an integer below 2^64; wrapping addition and multiplication reduce modulo
 2^64, and the bitwise operators are defined bit by bit. The main result is that the
 generator has full period with no repeated output: any two of the first 2^64 outputs
 differ, whatever the seed.
 */
module SplitMix {
  import opened BigUint

  const MODULUS: nat := 0x1_0000_0000_0000_0000
  const GAMMA: nat := 0x9E37_79B9_7F4A_7C15
  const MIX_A: nat := 0xBF58_476D_1CE4_E5B9
  const MIX_B: nat := 0x94D0_49BB_1331_11EB

  // Inverses modulo 2^64 of the three odd constants above.
  const GAMMA_INV: nat := 0xF1DE_83E1_9937_733D
  const MIX_A_INV: nat := 0x96DE_1B17_3F11_9089
  const MIX_B_INV: nat := 0x3196_42B2_D24D_8EC3

  type U64 = x: int | 0 <= x < MODULUS

  // ---------------------------------------------------------------------------
  // Bit operations
  // ---------------------------------------------------------------------------

  function Xor(a: nat, b: nat): nat
    decreases a + b
  {
    if a == 0 && b == 0 then 0 else (a % 2 + b % 2) % 2 + 2 * Xor(a / 2, b / 2)
  }

  function Shr(a: nat, s: nat): nat
    decreases s
  {
    if s == 0 then a else Shr(a / 2, s - 1)
  }

  lemma {:induction false} XorBounded(a: nat, b: nat, n: nat)
    requires a < Pow2(n) && b < Pow2(n)
    ensures Xor(a, b) < Pow2(n)
    decreases n
  {
    if n > 0 { XorBounded(a / 2, b / 2, n - 1); }
  }

  lemma XorUnfolds(a: nat, b: nat)
    ensures Xor(a, b) % 2 == (a % 2 + b % 2) % 2 && Xor(a, b) / 2 == Xor(a / 2, b / 2)
  {}

  lemma {:induction false} XorCancels(a: nat, b: nat, c: nat)
    requires Xor(a, c) == Xor(b, c)
    ensures a == b
    decreases a + b + c
  {
    if a != 0 || b != 0 || c != 0 {
      XorUnfolds(a, c);
      XorUnfolds(b, c);
      XorCancels(a / 2, b / 2, c / 2);
    }
  }

  lemma {:induction false} ShrOfXor(a: nat, b: nat, s: nat)
    ensures Shr(Xor(a, b), s) == Xor(Shr(a, s), Shr(b, s))
    decreases s
  {
    if s > 0 {
      ShrOfXor(a / 2, b / 2, s - 1);
      XorUnfolds(a, b);
    }
  }

  lemma {:induction false} ShrShrinks(a: nat, s: nat)
    requires s > 0
    ensures Shr(a, s) <= a / 2
    decreases s
  {
    if s > 1 { ShrShrinks(a / 2, s - 1); }
  }

  function XorShift(z: nat, s: nat): nat { Xor(z, Shr(z, s)) }

  /** `z ^ (z >> s)` loses nothing: two inputs with the same image are equal. */
  lemma {:induction false} XorShiftInjective(a: nat, b: nat, s: nat)
    requires s > 0 && XorShift(a, s) == XorShift(b, s)
    ensures a == b
    decreases a + b
  {
    if a + b > 0 {
      var a', b' := Shr(a, s), Shr(b, s);
      ShrShrinks(a, s);
      ShrShrinks(b, s);
      ShrOfXor(a, a', s);
      ShrOfXor(b, b', s);
      XorShiftInjective(a', b', s);
      XorCancels(a, b, a');
    }
  }

  lemma Pow2Of64()
    ensures Pow2(64) == MODULUS
  {
    Pow2Plus32(0);
    assert Pow2(0 + 32) == WORD;
    Pow2Plus32(32);
    assert Pow2(32 + 32) == WORD * WORD;
  }

  lemma XorShiftFits(z: U64, s: nat)
    requires s > 0
    ensures XorShift(z, s) < MODULUS
  {
    Pow2Of64();
    ShrShrinks(z, s);
    XorBounded(z, Shr(z, s), 64);
  }

  // ---------------------------------------------------------------------------
  // Multiplication by an odd constant
  // ---------------------------------------------------------------------------

  function WrappingMul(a: nat, c: nat): U64 { (a * c) % MODULUS }

  lemma Expand(z: int, c: int, ci: int, k: int, q: int, r: int)
    requires z * c == MODULUS * q + r && c * ci == 1 + MODULUS * k
    ensures r * ci == MODULUS * (z * k - q * ci) + z
  {
    assert (z * c) * ci == z * (c * ci);
    assert (MODULUS * q + r) * ci == MODULUS * (q * ci) + r * ci;
    assert z * (1 + MODULUS * k) == z + MODULUS * (z * k);
  }

  lemma NatProduct(a: nat, b: nat)
    ensures a * b >= 0
  {}

  /** Multiplying back by the inverse constant recovers the factor. */
  lemma OddFactorInvertible(z: U64, c: nat, ci: nat)
    requires (c * ci) % MODULUS == 1
    ensures WrappingMul(WrappingMul(z, c), ci) == z
  {
    var q, k := z * c / MODULUS, c * ci / MODULUS;
    Expand(z, c, ci, k, q, WrappingMul(z, c));
    var m := z * k - q * ci;
    assert m >= 0 by { NatProduct(WrappingMul(z, c), ci); }
    ModUnique(WrappingMul(z, c) * ci, MODULUS, m, z);
  }

  // ---------------------------------------------------------------------------
  // The generator
  // ---------------------------------------------------------------------------

  /** The output mix: two xor-shift/multiply rounds and a final xor-shift. */
  function Mix(state: U64): (z: nat)
  {
    var z1 := WrappingMul(XorShift(state, 30), MIX_A);
    var z2 := WrappingMul(XorShift(z1, 27), MIX_B);
    XorShift(z2, 31)
  }

  lemma RoundInjective(a: U64, b: U64, s: nat, c: nat, ci: nat)
    requires s > 0 && (c * ci) % MODULUS == 1
    requires WrappingMul(XorShift(a, s), c) == WrappingMul(XorShift(b, s), c)
    ensures a == b
  {
    XorShiftFits(a, s);
    XorShiftFits(b, s);
    OddFactorInvertible(XorShift(a, s), c, ci);
    OddFactorInvertible(XorShift(b, s), c, ci);
    XorShiftInjective(a, b, s);
  }

  lemma ConstantsAreOdd()
    ensures (MIX_A * MIX_A_INV) % MODULUS == 1 && (MIX_B * MIX_B_INV) % MODULUS == 1
  {}

  lemma MixInjective(a: U64, b: U64)
    ensures Mix(a) == Mix(b) <==> a == b
  {
    var a1, b1 := WrappingMul(XorShift(a, 30), MIX_A), WrappingMul(XorShift(b, 30), MIX_A);
    if Mix(a) == Mix(b) {
      ConstantsAreOdd();
      XorShiftInjective(WrappingMul(XorShift(a1, 27), MIX_B), WrappingMul(XorShift(b1, 27), MIX_B), 31);
      RoundInjective(a1, b1, 27, MIX_B, MIX_B_INV);
      RoundInjective(a, b, 30, MIX_A, MIX_A_INV);
    }
  }

  lemma {:induction false} XorTwice(a: nat, b: nat)
    ensures Xor(Xor(a, b), b) == a
    decreases a + b
  {
    if a != 0 || b != 0 {
      var c := Xor(a, b);
      XorUnfolds(a, b);
      XorUnfolds(c, b);
      XorTwice(a / 2, b / 2);
      SameHalves(Xor(c, b), a, b % 2, c % 2);
    }
  }

  lemma SameHalves(d: nat, a: nat, q: nat, c: nat)
    requires q < 2 && c == (a % 2 + q) % 2 && d % 2 == (c + q) % 2 && d / 2 == a / 2
    ensures d == a
  {}

  /** Undo `z ^ (z >> s)`: recover the high bits first and shift them back in. */
  function UnXorShift(y: nat, s: nat): nat
    requires s > 0
    decreases y
  {
    if y == 0 then 0 else
      assert Shr(y, s) < y by { ShrShrinks(y, s); }
      Xor(y, UnXorShift(Shr(y, s), s))
  }

  lemma {:induction false} XorShiftUndone(z: nat, s: nat)
    requires s > 0
    ensures UnXorShift(XorShift(z, s), s) == z
    decreases z
  {
    ZeroUnshifted(s);
    if z != 0 {
      var y, high := XorShift(z, s), Shr(z, s);
      ShrShrinks(z, s);
      XorShiftUndone(high, s);
      ShrOfXor(z, high, s);
      XorTwice(z, high);
      OnlyZeroVanishes(z, s);
    }
  }

  lemma OnlyZeroVanishes(z: nat, s: nat)
    requires s > 0
    ensures XorShift(z, s) == 0 ==> z == 0
  {
    ZeroUnshifted(s);
    if XorShift(z, s) == 0 { XorShiftInjective(z, 0, s); }
  }

  lemma {:induction false} ZeroUnshifted(s: nat)
    ensures Shr(0, s) == 0 && XorShift(0, s) == 0
    decreases s
  {
    if s > 0 { ZeroUnshifted(s - 1); }
  }

  /** The inverse of the output mix, stage by stage in the opposite order. */
  function Unmix(z: nat): nat {
    var z2 := UnXorShift(z, 31);
    var z1 := UnXorShift(WrappingMul(z2, MIX_B_INV), 27);
    UnXorShift(WrappingMul(z1, MIX_A_INV), 30)
  }

  lemma RoundUndone(a: U64, s: nat, c: nat, ci: nat)
    requires s > 0 && (c * ci) % MODULUS == 1
    ensures UnXorShift(WrappingMul(WrappingMul(XorShift(a, s), c), ci), s) == a
  {
    XorShiftFits(a, s);
    OddFactorInvertible(XorShift(a, s), c, ci);
    XorShiftUndone(a, s);
  }

  /** The state can be recovered from the output. */
  lemma UnmixMix(a: U64)
    ensures Unmix(Mix(a)) == a
  {
    var a1 := WrappingMul(XorShift(a, 30), MIX_A);
    var a2 := WrappingMul(XorShift(a1, 27), MIX_B);
    ConstantsAreOdd();
    XorShiftUndone(a2, 31);
    RoundUndone(a1, 27, MIX_B, MIX_B_INV);
    RoundUndone(a, 30, MIX_A, MIX_A_INV);
  }

  lemma MixIsU64(a: U64)
    ensures Mix(a) < MODULUS
  {
    XorShiftFits(WrappingMul(XorShift(WrappingMul(XorShift(a, 30), MIX_A), 27), MIX_B), 31);
  }

  /** The state after `k` calls of `next_u64`. */
  function StateAfter(seed: U64, k: nat): U64 {
    if k == 0 then seed else (StateAfter(seed, k - 1) + GAMMA) % MODULUS
  }

  /** The value returned by the `k`-th call, counting from 0. */
  function Output(seed: U64, k: nat): nat { Mix(StateAfter(seed, k + 1)) }

  lemma {:induction false} StateIsAffine(seed: U64, k: nat)
    ensures StateAfter(seed, k) == (seed + k * GAMMA) % MODULUS
  {
    if k > 0 {
      StateIsAffine(seed, k - 1);
      AddAfterMod(seed + (k - 1) * GAMMA, GAMMA);
    }
  }

  lemma AddAfterMod(x: nat, g: nat)
    ensures (x % MODULUS + g) % MODULUS == (x + g) % MODULUS
  {
    assert x == x / MODULUS * MODULUS + x % MODULUS;
  }

  /** A multiple of the additive step vanishes modulo 2^64 only if the multiplier does. */
  lemma GammaIsCoprime(d: int, c: int)
    requires d * GAMMA == c * MODULUS
    ensures d % MODULUS == 0
  {
    var m := c * GAMMA_INV - d * (GAMMA * GAMMA_INV / MODULUS);
    assert d == m * MODULUS;
  }

  /** The additive step is coprime to 2^64, so states repeat only after 2^64 calls. */
  lemma StatesDiffer(seed: U64, i: nat, j: nat)
    requires i < j < i + MODULUS
    ensures StateAfter(seed, i) != StateAfter(seed, j)
  {
    StateIsAffine(seed, i);
    StateIsAffine(seed, j);
    if StateAfter(seed, i) == StateAfter(seed, j) {
      var c := (seed + j * GAMMA) / MODULUS - (seed + i * GAMMA) / MODULUS;
      GammaIsCoprime(j - i, c);
    }
  }

  /** Any two outputs less than 2^64 calls apart differ, for every seed. */
  lemma OutputsNeverRepeat(seed: U64, i: nat, j: nat)
    requires i < j < i + MODULUS
    ensures Output(seed, i) != Output(seed, j)
  {
    StatesDiffer(seed, i + 1, j + 1);
    if Output(seed, i) == Output(seed, j) {
      MixInjective(StateAfter(seed, i + 1), StateAfter(seed, j + 1));
    }
  }

  /** The state comes back to the seed after exactly 2^64 calls, and not before. */
  lemma PeriodIsExact(seed: U64, k: nat)
    ensures StateAfter(seed, MODULUS) == seed
    ensures 0 < k < MODULUS ==> StateAfter(seed, k) != seed
  {
    StateIsAffine(seed, MODULUS);
    if 0 < k < MODULUS { StatesDiffer(seed, 0, k); }
  }

  /** The mutable generator. `calls` counts the outputs drawn since `new`. */
  class Rng {
    var state: U64
    ghost const seed: U64
    ghost var calls: nat

    ghost predicate Valid()
      reads this
    {
      state == StateAfter(seed, calls)
    }

    constructor (s: U64)
      ensures Valid() && seed == s && calls == 0
    {
      state := s;
      seed := s;
      calls := 0;
    }

    method NextU64() returns (z: U64)
      requires Valid()
      modifies this
      ensures Valid() && calls == old(calls) + 1
      ensures z == Output(seed, old(calls))
    {
      state := (state + GAMMA) % MODULUS;
      calls := calls + 1;
      MixIsU64(state);
      var y := state;
      y := WrappingMul(Xor(y, Shr(y, 30)), MIX_A);
      y := WrappingMul(Xor(y, Shr(y, 27)), MIX_B);
      z := Xor(y, Shr(y, 31));
    }
  }
}
