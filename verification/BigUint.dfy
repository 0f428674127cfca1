/**
 Arbitrary-precision integers as the vector code uses them: bits, and words of 32 bits in
 least-significant-first order (`BigUint::from_slice`, `iter_u32_digits`).
 */
module BigUint {

  const WORD: nat := 0x1_0000_0000
  type U32 = w: int | 0 <= w < WORD

  function Pow2(n: nat): (p: nat)
    ensures p >= 1
  {
    if n == 0 then 1 else 2 * Pow2(n - 1)
  }

  lemma Pow2Plus8(n: nat)
    ensures Pow2(n + 8) == 256 * Pow2(n)
  {
    assert Pow2(n + 2) == 4 * Pow2(n);
    assert Pow2(n + 4) == 16 * Pow2(n);
    assert Pow2(n + 6) == 64 * Pow2(n);
  }

  lemma Pow2Plus32(n: nat)
    ensures Pow2(n + 32) == WORD * Pow2(n)
  {
    Pow2Plus8(n);
    Pow2Plus8(n + 8);
    Pow2Plus8(n + 16);
    Pow2Plus8(n + 24);
  }

  lemma {:induction false} Pow2Monotone(m: nat, n: nat)
    requires m <= n
    ensures Pow2(m) <= Pow2(n)
    decreases n
  {
    if m < n { Pow2Monotone(m, n - 1); }
  }

  // ---------------------------------------------------------------------------
  // Bits
  // ---------------------------------------------------------------------------

  function Bit(n: nat, i: nat): bool
    decreases i
  {
    if i == 0 then n % 2 == 1 else Bit(n / 2, i - 1)
  }

  /** `set_bit(i, true)`. */
  function SetBit(n: nat, i: nat): nat { if Bit(n, i) then n else n + Pow2(i) }

  /** Two numbers below 2^w with the same w bits are equal. */
  lemma {:induction false} BitsDetermine(m: nat, n: nat, w: nat)
    requires m < Pow2(w) && n < Pow2(w) && forall i: nat :: i < w ==> Bit(m, i) == Bit(n, i)
    ensures m == n
    decreases w
  {
    if w > 0 {
      assert Bit(m, 0) == Bit(n, 0);
      forall i: nat | i < w - 1 ensures Bit(m / 2, i) == Bit(n / 2, i) { assert Bit(m, i + 1) == Bit(n, i + 1); }
      BitsDetermine(m / 2, n / 2, w - 1);
    }
  }

  lemma {:induction false} HighBitsClear(n: nat, w: nat, i: nat)
    requires n < Pow2(w) && w <= i
    ensures !Bit(n, i)
    decreases i
  {
    if i > 0 { HighBitsClear(n / 2, if w == 0 then 0 else w - 1, i - 1); }
  }

  /** Bits of a number with 2^w added: the low ones are unchanged and bit `w` is flipped on. */
  lemma {:induction false} BitsOfSum(n: nat, w: nat, i: nat)
    requires n < Pow2(w)
    ensures i < w ==> Bit(n + Pow2(w), i) == Bit(n, i)
    ensures Bit(n + Pow2(w), w)
    decreases w
  {
    if w > 0 {
      assert (n + Pow2(w)) / 2 == n / 2 + Pow2(w - 1) && (n + Pow2(w)) % 2 == n % 2;
      BitsOfSum(n / 2, w - 1, if i == 0 then 0 else i - 1);
    }
  }

  /** The `w` low bits of a number. */
  function Low(n: nat, w: nat): nat
    decreases w
  {
    if w == 0 then 0 else n % 2 + 2 * Low(n / 2, w - 1)
  }

  /** Keeping the low bits is reduction modulo a power of two. */
  lemma {:induction false} LowIsMod(n: nat, w: nat)
    ensures Low(n, w) == n % Pow2(w)
    decreases w
  {
    if w > 0 {
      LowIsMod(n / 2, w - 1);
      SplitMod(n % 2, n / 2, 2, Pow2(w - 1));
    }
  }

  lemma {:induction false} LowBounded(n: nat, w: nat)
    ensures Low(n, w) < Pow2(w) && Low(n, w) <= n
    decreases w
  {
    if w > 0 { LowBounded(n / 2, w - 1); }
  }

  lemma {:induction false} LowOfSmall(n: nat, w: nat)
    requires n < Pow2(w)
    ensures Low(n, w) == n
    decreases w
  {
    if w > 0 { LowOfSmall(n / 2, w - 1); }
  }

  lemma {:induction false} BitsOfLow(n: nat, w: nat, i: nat)
    requires i < w
    ensures Bit(Low(n, w), i) == Bit(n, i)
    decreases w
  {
    if i > 0 { BitsOfLow(n / 2, w - 1, i - 1); }
  }

  /** Cutting a number of several words cuts the words above the lowest. */
  lemma LowOfWords(lo: U32, rest: nat, w: nat)
    ensures Low(lo + WORD * rest, w + 32) == lo + WORD * Low(rest, w)
  {
    LowIsMod(lo + WORD * rest, w + 32);
    LowIsMod(rest, w);
    Pow2Plus32(w);
    SplitMod(lo, rest, WORD, Pow2(w));
  }

  /** A number written as low digit plus base times rest, reduced modulo base times p. */
  lemma SplitMod(lo: nat, rest: nat, base: nat, p: nat)
    requires lo < base && p >= 1
    ensures base * p >= 1 && (lo + base * rest) % (base * p) == lo + base * (rest % p)
  {
    var q, r := rest / p, rest % p;
    assert rest == p * q + r;
    assert base * rest == (base * p) * q + base * r by { Distribute(base, p, q, r); }
    assert base * r <= base * (p - 1) == base * p - base by { MulMonotone(base, r, p - 1); }
    ModUnique(lo + base * rest, base * p, q, lo + base * r);
  }

  lemma Distribute(base: nat, p: nat, q: nat, r: nat)
    ensures base * (p * q + r) == (base * p) * q + base * r
  {}

  lemma MulMonotone(b: nat, x: int, y: int)
    requires x <= y
    ensures b * x <= b * y
  {}

  lemma ModUnique(n: nat, m: nat, q: nat, r: nat)
    requires m >= 1 && n == m * q + r && r < m
    ensures n % m == r
  {
    assert n == m * (n / m) + n % m;
    var d := q - n / m;
    assert m * d == n % m - r by { assert m * d == m * q - m * (n / m); }
    if d >= 1 { MulMonotone(m, 1, d); }
    if d <= -1 { MulMonotone(m, d, -1); }
  }

  // ---------------------------------------------------------------------------
  // Words
  // ---------------------------------------------------------------------------

  /** `BigUint::from_slice`. */
  function FromSlice(ws: seq<U32>): nat {
    if ws == [] then 0 else ws[0] + WORD * FromSlice(ws[1..])
  }

  lemma FromSliceCons(w: U32, rest: seq<U32>)
    ensures FromSlice([w] + rest) == w + WORD * FromSlice(rest)
  {
    assert ([w] + rest)[1..] == rest;
  }

  /** `iter_u32_digits`: no leading zero words. */
  function Digits(n: nat): seq<U32> {
    if n == 0 then [] else [n % WORD] + Digits(n / WORD)
  }

  function DigitAt(n: nat, i: nat): U32 { if i < |Digits(n)| then Digits(n)[i] else 0 }

  lemma DigitAtStep(n: nat, i: nat)
    ensures DigitAt(n, 0) == n % WORD && DigitAt(n, i + 1) == DigitAt(n / WORD, i)
  {}

  lemma {:induction false} FromSliceOfDigits(n: nat)
    ensures FromSlice(Digits(n)) == n
  {
    if n != 0 { FromSliceOfDigits(n / WORD); }
  }

  lemma {:induction false} FromSliceBounded(ws: seq<U32>)
    ensures FromSlice(ws) < Pow2(32 * |ws|)
  {
    if ws != [] {
      FromSliceBounded(ws[1..]);
      Pow2Plus32(32 * |ws[1..]|);
    }
  }

  lemma {:induction false} FromSliceZero(ws: seq<U32>)
    ensures FromSlice(ws) == 0 <==> forall i :: 0 <= i < |ws| ==> ws[i] == 0
  {
    if ws != [] {
      FromSliceZero(ws[1..]);
      assert forall i :: 1 <= i < |ws| ==> ws[i] == ws[1..][i - 1];
    }
  }

  lemma {:induction false} FromSliceAppend(ws: seq<U32>, w: U32)
    ensures FromSlice(ws + [w]) == FromSlice(ws) + Pow2(32 * |ws|) * w
  {
    if ws == [] {
      assert ws + [w] == [w] && [w][1..] == [];
    } else {
      FromSliceAppend(ws[1..], w);
      assert (ws + [w])[1..] == ws[1..] + [w];
      Pow2Plus32(32 * |ws[1..]|);
      Regroup(Pow2(32 * |ws[1..]|), w);
    }
  }

  lemma Regroup(p: nat, w: nat)
    ensures WORD * (p * w) == (WORD * p) * w
  {}

  /** Zero words on top change nothing. */
  lemma {:induction false} FromSlicePadded(ws: seq<U32>, k: nat)
    ensures FromSlice(ws + seq(k, _ => 0)) == FromSlice(ws)
  {
    if ws == [] {
      FromSliceZero(seq(k, _ => 0));
      assert ws + seq(k, _ => 0) == seq(k, _ => 0);
    } else {
      FromSlicePadded(ws[1..], k);
      assert (ws + seq(k, _ => 0))[1..] == ws[1..] + seq(k, _ => 0);
    }
  }

  /** The lowest `k` words of a number. */
  function Words(n: nat, k: nat): seq<U32> { seq(k, i requires 0 <= i < k => DigitAt(n, i)) }

  lemma {:induction false} FromSliceOfWords(n: nat, k: nat)
    ensures FromSlice(Words(n, k)) == Low(n, 32 * k)
  {
    if k > 0 {
      var ws, rest := Words(n, k), Words(n / WORD, k - 1);
      forall i | 0 <= i < k - 1 ensures ws[1..][i] == rest[i] { DigitAtStep(n, i); }
      assert ws[1..] == rest && ws[0] == n % WORD by { DigitAtStep(n, 0); }
      FromSliceOfWords(n / WORD, k - 1);
      LowOfWords(n % WORD, n / WORD, 32 * (k - 1));
    }
  }

  /** Word sequences of one length are determined by their value. */
  lemma {:induction false} FromSliceInjective(u: seq<U32>, v: seq<U32>)
    requires |u| == |v| && FromSlice(u) == FromSlice(v)
    ensures u == v
  {
    if u != [] {
      assert u[0] == v[0] && FromSlice(u[1..]) == FromSlice(v[1..]);
      FromSliceInjective(u[1..], v[1..]);
      assert u == [u[0]] + u[1..] && v == [v[0]] + v[1..];
    }
  }

  lemma WordsOfFromSlice(ws: seq<U32>)
    ensures Words(FromSlice(ws), |ws|) == ws
  {
    FromSliceBounded(ws);
    LowOfSmall(FromSlice(ws), 32 * |ws|);
    FromSliceOfWords(FromSlice(ws), |ws|);
    FromSliceInjective(Words(FromSlice(ws), |ws|), ws);
  }

  // ---------------------------------------------------------------------------
  // Masking to a width
  // ---------------------------------------------------------------------------

  /** `width.div_ceil(32)`. */
  function WordCount(width: nat): nat { (width + 31) / 32 }

  /** A word and-ed with `(1 << used) - 1`. */
  function MaskWord(w: U32, used: nat): U32 {
    LowBounded(w, used);
    Low(w, used)
  }

  /** Keep only the used bits of the last word. */
  function MaskLast(ws: seq<U32>, width: nat): seq<U32>
    requires |ws| == WordCount(width)
  {
    if width % 32 == 0 then ws
    else ws[|ws| - 1 := MaskWord(ws[|ws| - 1], width % 32)]
  }

  lemma WordCountStep(width: nat)
    ensures 0 < width <= 32 ==> WordCount(width) == 1
    ensures width > 32 ==> WordCount(width) == 1 + WordCount(width - 32) && width % 32 == (width - 32) % 32
  {}

  lemma MaskLastTail(ws: seq<U32>, width: nat)
    requires |ws| == WordCount(width) && width > 32
    ensures |ws[1..]| == WordCount(width - 32) && |ws| > 0
    ensures MaskLast(ws, width)[0] == ws[0] && MaskLast(ws, width)[1..] == MaskLast(ws[1..], width - 32)
  {
    WordCountStep(width);
  }

  lemma FromSliceOne(w: U32)
    ensures FromSlice([w]) == w
  {
    assert [w][1..] == [];
  }

  lemma MaskOneWord(w: U32, width: nat)
    requires 0 < width <= 32 && 1 == WordCount(width)
    ensures FromSlice(MaskLast([w], width)) == Low(w, width)
  {
    if width == 32 {
      FromSliceOne(w);
      Pow2Plus32(width - 32);
      LowOfSmall(w, width);
    } else {
      assert width % 32 == width;
      FromSliceOne(MaskWord(w, width));
    }
  }

  /** Masking the last word is reduction modulo 2^width. */
  lemma {:induction false} MaskLastIsLow(ws: seq<U32>, width: nat)
    requires |ws| == WordCount(width)
    ensures FromSlice(MaskLast(ws, width)) == Low(FromSlice(ws), width)
    decreases |ws|
  {
    if width > 32 {
      MaskLastTail(ws, width);
      MaskLastIsLow(ws[1..], width - 32);
      MaskLastStep(ws, MaskLast(ws, width), width - 32);
    } else if width > 0 {
      WordCountStep(width);
      assert ws == [ws[0]];
      FromSliceOne(ws[0]);
      MaskOneWord(ws[0], width);
    }
  }

  lemma MaskLastStep(ws: seq<U32>, ms: seq<U32>, rest: nat)
    requires ws != [] && ms != [] && ws[0] == ms[0] && FromSlice(ms[1..]) == Low(FromSlice(ws[1..]), rest)
    ensures FromSlice(ms) == Low(FromSlice(ws), rest + 32)
  {
    LowOfWords(ws[0], FromSlice(ws[1..]), rest);
  }
}
