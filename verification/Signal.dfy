/**
 Word-wise reads and writes of a simulator signal: `LogicHandle` of
 `rustdv-gpi/src/rustdv_gpi.rs` and the integer conversions of `rustdv-gpi/src/util.rs`.

 The simulator stores the vector words it is given (section 38.34 of IEEE 1800-2017); when
 they are read back, bits beyond the signal's width may be anything.
 */
module Signal {
  import opened Basics
  import opened BigUint
  import opened LogicArray

  type VecVal = (U32, U32)

  // ---------------------------------------------------------------------------
  // Reads
  // ---------------------------------------------------------------------------

  /** What every integer read returns, seen through the four-state view of the same words. */
  function ViewAsInteger(ws: seq<VecVal>, width: nat): Result<nat, ValueError>
    requires |ws| == WordCount(width)
  {
    var x := FromVpiWords(ws, width);
    if x.IsResolvable() then Ok(x.a) else Err(FourState(x.ToBinstr()))
  }

  /** Bits used in word `i` of a signal. */
  function UsedBits(width: nat, last: bool): nat { if last && width % 32 != 0 then width % 32 else 32 }

  /** `get_vpi_word`: mask both planes, refuse x and z in the used bits. */
  function GetVpiWord(ws: seq<VecVal>, i: nat, width: nat): Result<U32, ValueError>
    requires |ws| == WordCount(width) && i < |ws|
  {
    var used := UsedBits(width, i + 1 == |ws|);
    var a := if used == 32 then ws[i].0 else MaskWord(ws[i].0, used);
    var b := if used == 32 then ws[i].1 else MaskWord(ws[i].1, used);
    if b != 0 then Err(FourState(FromVpiWords(ws, width).ToBinstr())) else Ok(a)
  }

  lemma GetVpiWordIsMasked(ws: seq<VecVal>, i: nat, width: nat)
    requires |ws| == WordCount(width) && i < |ws|
    ensures GetVpiWord(ws, i, width) ==
            if MaskLast(Bvals(ws), width)[i] != 0 then Err(FourState(FromVpiWords(ws, width).ToBinstr()))
            else Ok(MaskLast(Avals(ws), width)[i])
  {}

  /** A word that cannot be read makes the whole view an error; one that can is the masked word. */
  lemma WordRead(ws: seq<VecVal>, i: nat, width: nat)
    requires |ws| == WordCount(width) && i < |ws|
    ensures var a, b, w := MaskLast(Avals(ws), width), MaskLast(Bvals(ws), width), GetVpiWord(ws, i, width);
            && (w.Err? ==> ViewAsInteger(ws, width) == Err(w.error))
            && (w.Ok? ==> w.value == a[i] && b[i] == 0)
  {
    GetVpiWordIsMasked(ws, i, width);
    FromSliceZero(MaskLast(Bvals(ws), width));
  }

  /** With no x or z the view is the value of the masked words. */
  lemma ViewOfCleanWords(ws: seq<VecVal>, width: nat)
    requires |ws| == WordCount(width)
    requires var b := MaskLast(Bvals(ws), width); forall k :: 0 <= k < |b| ==> b[k] == 0
    ensures var r := ViewAsInteger(ws, width);
            r == Ok(FromSlice(MaskLast(Avals(ws), width))) && r.value < Pow2(width)
  {
    FromSliceZero(MaskLast(Bvals(ws), width));
    FromVpiWordsIsValid(ws, width);
  }

  /** `get_bigint`: collect the masked words, stopping at the first x or z. */
  method GetBigint(ws: seq<VecVal>, width: nat) returns (r: Result<nat, ValueError>)
    requires |ws| == WordCount(width)
    ensures r == ViewAsInteger(ws, width)
  {
    ghost var a, b := MaskLast(Avals(ws), width), MaskLast(Bvals(ws), width);
    var digits: seq<U32> := [];
    var i := 0;
    while i < |ws|
      invariant i <= |ws| && digits == a[..i]
      invariant forall k :: 0 <= k < i ==> b[k] == 0
    {
      WordRead(ws, i, width);
      var w := GetVpiWord(ws, i, width);
      if w.Err? { return Err(w.error); }
      digits := digits + [w.value];
      i := i + 1;
    }
    assert a[..i] == a;
    ViewOfCleanWords(ws, width);
    r := Ok(FromSlice(digits));
  }

  lemma ShiftInWord(a: seq<U32>, i: nat)
    requires i < |a|
    ensures FromSlice(a[..i + 1]) == FromSlice(a[..i]) + Pow2(32 * i) * a[i]
    ensures Pow2(32 * i) * WORD == Pow2(32 * (i + 1))
  {
    assert a[..i + 1] == a[..i] + [a[i]];
    FromSliceAppend(a[..i], a[i]);
    Pow2Plus32(32 * i);
    assert 32 * (i + 1) == 32 * i + 32;
  }

  /**
   `get_u64` and `get_u128` (and, with one word, the narrower reads): refuse a wider
   signal, then accumulate the words by shifting.
   */
  method GetUnsigned(ws: seq<VecVal>, width: nat, bits: nat) returns (r: Result<nat, ValueError>)
    requires |ws| == WordCount(width)
    ensures r == if width > bits then Err(Width(bits, width)) else ViewAsInteger(ws, width)
    ensures r.Ok? ==> r.value < Pow2(bits)
  {
    if width > bits { return Err(Width(bits, width)); }
    Pow2Monotone(width, bits);
    ghost var a, b := MaskLast(Avals(ws), width), MaskLast(Bvals(ws), width);
    var result, shift := 0, 1;
    var i := 0;
    while i < |ws|
      invariant i <= |ws| && result == FromSlice(a[..i]) && shift == Pow2(32 * i)
      invariant forall k :: 0 <= k < i ==> b[k] == 0
    {
      WordRead(ws, i, width);
      var w := GetVpiWord(ws, i, width);
      if w.Err? { return Err(w.error); }
      ShiftInWord(a, i);
      result := result + shift * w.value;
      shift := shift * WORD;
      i := i + 1;
    }
    assert a[..i] == a;
    ViewOfCleanWords(ws, width);
    r := Ok(result);
  }

  /**
   An integer read succeeds with `v` exactly when the four-state view of the signal has no
   x or z bit, equals `v`, and the signal is not wider than the integer.
   */
  lemma ReadSucceedsIff(ws: seq<VecVal>, width: nat, v: nat)
    requires |ws| == WordCount(width)
    ensures ViewAsInteger(ws, width) == Ok(v) <==>
            v < Pow2(width)
            && forall i: nat :: i < width ==>
                 FromVpiWords(ws, width).Index(i) == Some(if Bit(v, i) then One else Zero)
  {
    var x := FromVpiWords(ws, width);
    var y := LogicArray(v, 0, width);
    FromVpiWordsIsValid(ws, width);
    forall i: nat | i < width ensures !Bit(0, i) { Pow2Monotone(0, width); HighBitsClear(0, 0, i); }
    if v < Pow2(width) && forall i: nat :: i < width ==> x.Index(i) == Some(if Bit(v, i) then One else Zero) {
      Extensional(x, y);
    }
  }

  /** It fails exactly when some bit of the view is x or z, and the error shows the whole view. */
  lemma ReadFailsIff(ws: seq<VecVal>, width: nat)
    requires |ws| == WordCount(width)
    ensures ViewAsInteger(ws, width).Err? <==>
            exists i: nat :: FromVpiWords(ws, width).Index(i) == Some(X) || FromVpiWords(ws, width).Index(i) == Some(Z)
    ensures ViewAsInteger(ws, width).Err? ==>
              ViewAsInteger(ws, width).error == FourState(FromVpiWords(ws, width).ToBinstr())
  {
    var x := FromVpiWords(ws, width);
    FromVpiWordsIsValid(ws, width);
    BoolConversion(x);
    if x.b == 0 {
      forall i: nat ensures x.Index(i) != Some(X) && x.Index(i) != Some(Z) { assert i < x.width || x.Index(i) == None; }
    } else {
      var i := HasBit(x.b, width);
      assert x.Index(i) == Some(X) || x.Index(i) == Some(Z);
    }
  }

  // ---------------------------------------------------------------------------
  // Writes
  // ---------------------------------------------------------------------------

  /** The words stored for a signal of the given width: cut or zero-extended, then masked. */
  function Resized(ws: seq<VecVal>, width: nat): (r: seq<VecVal>)
    ensures |r| == WordCount(width)
  {
    var n := WordCount(width);
    if |ws| >= n then Masked(ws[..n], width) else ws + seq(n - |ws|, _ => (0, 0))
  }

  function Masked(ws: seq<VecVal>, width: nat): seq<VecVal>
    requires |ws| == WordCount(width)
  {
    if width % 32 == 0 then ws else
      var last := |ws| - 1;
      ws[last := (MaskWord(ws[last].0, width % 32), MaskWord(ws[last].1, width % 32))]
  }

  /** `mask_vector_words`, in place on the slice that is handed to the simulator. */
  method MaskVectorWords(words: array<VecVal>, n: nat, width: nat)
    requires n == WordCount(width) <= words.Length
    modifies words
    ensures words[..n] == Masked(old(words[..n]), width)
    ensures words[n..] == old(words[n..])
  {
    if width % 32 != 0 {
      var last := words[n - 1];
      words[n - 1] := (MaskWord(last.0, width % 32), MaskWord(last.1, width % 32));
      assert words[..n] == old(words[..n])[n - 1 := words[n - 1]];
    }
  }

  /** `set_vector_words`: what is passed to `vpi_put_value`, for words of any length. */
  method SetVectorWords(words: array<VecVal>, width: nat) returns (stored: seq<VecVal>)
    modifies words
    ensures stored == Resized(old(words[..]), width) && |stored| == WordCount(width)
  {
    var n := WordCount(width);
    if words.Length >= n {
      assert old(words[..])[..n] == old(words[..n]);
      MaskVectorWords(words, n, width);
      stored := words[..n];
    } else {
      stored := words[..] + seq(n - words.Length, _ => (0, 0));
    }
  }

  lemma MaskedPlanes(ws: seq<VecVal>, width: nat)
    requires |ws| == WordCount(width)
    ensures Avals(Masked(ws, width)) == MaskLast(Avals(ws), width)
    ensures Bvals(Masked(ws, width)) == MaskLast(Bvals(ws), width)
  {}

  lemma {:induction false} FromSliceOfPrefix(ws: seq<U32>, n: nat)
    requires n <= |ws|
    ensures FromSlice(ws[..n]) == Low(FromSlice(ws), 32 * n)
    decreases n
  {
    if n > 0 {
      FromSliceOfPrefix(ws[1..], n - 1);
      assert ws == [ws[0]] + ws[1..] && ws[..n] == [ws[0]] + ws[1..][..n - 1];
      PrefixStep(ws[0], ws[1..], ws[1..][..n - 1], 32 * (n - 1));
      assert 32 * n == 32 * (n - 1) + 32;
    }
  }

  lemma PrefixStep(w: U32, rest: seq<U32>, cut: seq<U32>, bits: nat)
    requires FromSlice(cut) == Low(FromSlice(rest), bits)
    ensures FromSlice([w] + cut) == Low(FromSlice([w] + rest), bits + 32)
  {
    FromSliceCons(w, rest);
    FromSliceCons(w, cut);
    LowOfWords(w, FromSlice(rest), bits);
  }

  lemma PrefixThenMask(ws: seq<U32>, width: nat)
    requires |ws| >= WordCount(width)
    ensures FromSlice(MaskLast(ws[..WordCount(width)], width)) == Low(FromSlice(ws), width)
  {
    var n := WordCount(width);
    MaskLastIsLow(ws[..n], width);
    FromSliceOfPrefix(ws, n);
    LowOfLow(FromSlice(ws), 32 * n, width);
  }

  lemma PadThenNothing(ws: seq<U32>, width: nat)
    requires |ws| < WordCount(width)
    ensures FromSlice(ws + seq(WordCount(width) - |ws|, _ => 0)) == Low(FromSlice(ws), width)
  {
    FromSlicePadded(ws, WordCount(width) - |ws|);
    FromSliceBounded(ws);
    Pow2Monotone(32 * |ws|, width);
    LowOfSmall(FromSlice(ws), width);
  }

  /** The stored planes are the written ones modulo 2^width, whatever length was written. */
  lemma StoredModulo(ws: seq<VecVal>, width: nat)
    ensures FromSlice(Avals(Resized(ws, width))) == Low(FromSlice(Avals(ws)), width)
    ensures FromSlice(Bvals(Resized(ws, width))) == Low(FromSlice(Bvals(ws)), width)
  {
    var n := WordCount(width);
    var out := Resized(ws, width);
    if |ws| >= n {
      MaskedPlanes(ws[..n], width);
      assert Avals(ws[..n]) == Avals(ws)[..n] && Bvals(ws[..n]) == Bvals(ws)[..n];
      PrefixThenMask(Avals(ws), width);
      PrefixThenMask(Bvals(ws), width);
    } else {
      assert Avals(out) == Avals(ws) + seq(n - |ws|, _ => 0);
      assert Bvals(out) == Bvals(ws) + seq(n - |ws|, _ => 0);
      PadThenNothing(Avals(ws), width);
      PadThenNothing(Bvals(ws), width);
    }
  }

  // ---------------------------------------------------------------------------
  // Write, then read
  // ---------------------------------------------------------------------------

  /** The simulator returns the stored words, up to the bits beyond the width. */
  ghost predicate ReadsBack(stored: seq<VecVal>, raw: seq<VecVal>, width: nat)
    requires |stored| == WordCount(width)
  {
    |raw| == |stored| && Masked(raw, width) == Masked(stored, width)
  }

  /** Whatever is written, the four-state view read back holds both planes modulo 2^width. */
  lemma WriteThenRead(ws: seq<VecVal>, width: nat, raw: seq<VecVal>)
    requires ReadsBack(Resized(ws, width), raw, width)
    ensures FromVpiWords(raw, width) ==
            LogicArray(FromSlice(Avals(ws)) % Pow2(width), FromSlice(Bvals(ws)) % Pow2(width), width)
  {
    var stored := Resized(ws, width);
    StoredModulo(ws, width);
    MaskedPlanes(raw, width);
    MaskedPlanes(stored, width);
    MaskLastIsLow(Avals(stored), width);
    MaskLastIsLow(Bvals(stored), width);
    LowOfLow(FromSlice(Avals(ws)), width, width);
    LowOfLow(FromSlice(Bvals(ws)), width, width);
    LowIsMod(FromSlice(Avals(ws)), width);
    LowIsMod(FromSlice(Bvals(ws)), width);
  }

  function TwoState(a: seq<U32>): seq<VecVal> { seq(|a|, i requires 0 <= i < |a| => (a[i], 0)) }

  /** `ToVpiWords for u64` and `for u128`: one word per 32 bits, by shifting. */
  function U64Words(v: nat): seq<VecVal>
    requires v < WORD * WORD
  {
    TwoState([v % WORD, v / WORD])
  }

  function U128Words(v: nat): seq<VecVal>
    requires v < WORD * WORD * WORD * WORD
  {
    TwoState([v % WORD, v / WORD % WORD, v / WORD / WORD % WORD, v / WORD / WORD / WORD])
  }

  lemma U64WordsValue(v: nat)
    requires v < WORD * WORD
    ensures FromSlice(Avals(U64Words(v))) == v && FromSlice(Bvals(U64Words(v))) == 0
  {
    var ws: seq<U32> := [v % WORD, v / WORD];
    assert Avals(U64Words(v)) == ws;
    assert ws[1..] == [v / WORD];
    FromSliceOne(v / WORD);
    FromSliceZero(Bvals(U64Words(v)));
  }

  lemma U128WordsValue(v: nat)
    requires v < WORD * WORD * WORD * WORD
    ensures FromSlice(Avals(U128Words(v))) == v && FromSlice(Bvals(U128Words(v))) == 0
  {
    var v1 := v / WORD;
    var v2 := v1 / WORD;
    var v3 := v2 / WORD;
    assert Avals(U128Words(v)) == [v % WORD] + ([v1 % WORD] + ([v2 % WORD] + [v3]));
    FromSliceOne(v3);
    FromSliceCons(v2 % WORD, [v3]);
    FromSliceCons(v1 % WORD, [v2 % WORD] + [v3]);
    FromSliceCons(v % WORD, [v1 % WORD] + ([v2 % WORD] + [v3]));
    FromSliceZero(Bvals(U128Words(v)));
  }

  /** Writing an arbitrary-precision integer and reading it back gives it modulo 2^width. */
  lemma BigintWriteThenRead(v: nat, width: nat, raw: seq<VecVal>)
    requires ReadsBack(Resized(TwoState(Digits(v)), width), raw, width)
    ensures ViewAsInteger(raw, width) == Ok(v % Pow2(width))
  {
    var ws := TwoState(Digits(v));
    assert Avals(ws) == Digits(v);
    FromSliceOfDigits(v);
    FromSliceZero(Bvals(ws));
    WriteThenRead(ws, width, raw);
    ZeroMod(width);
  }

  lemma ZeroMod(width: nat)
    ensures 0 % Pow2(width) == 0
  {}

  lemma U64WriteThenRead(v: nat, width: nat, raw: seq<VecVal>)
    requires v < WORD * WORD
    requires ReadsBack(Resized(U64Words(v), width), raw, width)
    ensures ViewAsInteger(raw, width) == Ok(v % Pow2(width))
  {
    U64WordsValue(v);
    WriteThenRead(U64Words(v), width, raw);
    ZeroMod(width);
  }

  lemma U128WriteThenRead(v: nat, width: nat, raw: seq<VecVal>)
    requires v < WORD * WORD * WORD * WORD
    requires ReadsBack(Resized(U128Words(v), width), raw, width)
    ensures ViewAsInteger(raw, width) == Ok(v % Pow2(width))
  {
    U128WordsValue(v);
    WriteThenRead(U128Words(v), width, raw);
    ZeroMod(width);
  }

  /** Writing a four-state vector to a signal of another width truncates or zero-extends both planes. */
  lemma LogicWriteThenRead(x: LogicArray, width: nat, raw: seq<VecVal>)
    requires x.Valid()
    requires ReadsBack(Resized(x.ToVpiWords(), width), raw, width)
    ensures FromVpiWords(raw, width) == LogicArray(x.a % Pow2(width), x.b % Pow2(width), width)
    ensures width == x.width ==> FromVpiWords(raw, width) == x
  {
    var ws, k := x.ToVpiWords(), WordCount(x.width);
    assert Avals(ws) == Words(x.a, k) && Bvals(ws) == Words(x.b, k);
    Pow2Monotone(x.width, 32 * k);
    FromSliceOfWords(x.a, k);
    FromSliceOfWords(x.b, k);
    LowOfSmall(x.a, 32 * k);
    LowOfSmall(x.b, 32 * k);
    WriteThenRead(ws, width, raw);
    if width == x.width {
      LowIsMod(x.a, width);
      LowIsMod(x.b, width);
      LowOfSmall(x.a, width);
      LowOfSmall(x.b, width);
    }
  }
}
