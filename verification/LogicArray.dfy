/**
 Four-state vectors of `rustdv-gpi/src/value.rs`: two bit planes in the VPI encoding of
 section 38.15 of IEEE 1800-2017, where the pairs (a, b) of 00, 10, 11 and 01 stand for
 0, 1, x and z.
 */
module LogicArray {
  import opened Basics
  import opened BigUint

  datatype Logic = Zero | One | X | Z

  function FromChar(c: char): Logic {
    match c
    case '0' => Zero
    case '1' => One
    case 'z' => Z
    case 'Z' => Z
    case _ => X
  }

  function ToChar(l: Logic): char {
    match l
    case Zero => '0'
    case One => '1'
    case X => 'x'
    case Z => 'z'
  }

  function ABit(l: Logic): nat { if l == One || l == X then 1 else 0 }
  function BBit(l: Logic): nat { if l == X || l == Z then 1 else 0 }

  function Decode(a: bool, b: bool): Logic {
    if a then (if b then X else One) else (if b then Z else Zero)
  }

  datatype LogicArray = LogicArray(a: nat, b: nat, width: nat) {

    /** Both planes fit in the width. */
    ghost predicate Valid() { a < Pow2(width) && b < Pow2(width) }

    /** Bit `i`, least significant first. */
    function Index(i: nat): Option<Logic> {
      if i >= width then None else Some(Decode(Bit(a, i), Bit(b, i)))
    }

    predicate IsResolvable() { b == 0 }

    /** Most significant bit first. */
    function ToBinstr(): string {
      seq(width, k requires 0 <= k < width => ToChar(Decode(Bit(a, width - 1 - k), Bit(b, width - 1 - k))))
    }

    function ToVpiWords(): seq<(U32, U32)> {
      var n := WordCount(width);
      seq(n, i requires 0 <= i < n => (DigitAt(a, i), DigitAt(b, i)))
    }
  }

  /** Two valid vectors with the same width and the same bits are the same. */
  lemma Extensional(x: LogicArray, y: LogicArray)
    requires x.Valid() && y.Valid() && x.width == y.width
    requires forall i: nat :: i < x.width ==> x.Index(i) == y.Index(i)
    ensures x == y
  {
    forall i: nat | i < x.width ensures Bit(x.a, i) == Bit(y.a, i) && Bit(x.b, i) == Bit(y.b, i) {
      assert x.Index(i) == y.Index(i);
    }
    BitsDetermine(x.a, y.a, x.width);
    BitsDetermine(x.b, y.b, x.width);
  }

  // ---------------------------------------------------------------------------
  // VPI words
  // ---------------------------------------------------------------------------

  function Avals(ws: seq<(U32, U32)>): seq<U32> { seq(|ws|, i requires 0 <= i < |ws| => ws[i].0) }
  function Bvals(ws: seq<(U32, U32)>): seq<U32> { seq(|ws|, i requires 0 <= i < |ws| => ws[i].1) }

  /** The unused bits of the last word are dropped. */
  function FromVpiWords(ws: seq<(U32, U32)>, width: nat): LogicArray
    requires |ws| == WordCount(width)
  {
    LogicArray(FromSlice(MaskLast(Avals(ws), width)), FromSlice(MaskLast(Bvals(ws), width)), width)
  }

  lemma FromVpiWordsIsValid(ws: seq<(U32, U32)>, width: nat)
    requires |ws| == WordCount(width)
    ensures var x := FromVpiWords(ws, width);
            && x.a == FromSlice(Avals(ws)) % Pow2(width) && x.b == FromSlice(Bvals(ws)) % Pow2(width)
            && x.Valid()
  {
    MaskLastIsLow(Avals(ws), width);
    MaskLastIsLow(Bvals(ws), width);
    LowIsMod(FromSlice(Avals(ws)), width);
    LowIsMod(FromSlice(Bvals(ws)), width);
    LowBounded(FromSlice(Avals(ws)), width);
    LowBounded(FromSlice(Bvals(ws)), width);
  }

  lemma WordsOfPlane(n: nat, width: nat)
    requires n < Pow2(width)
    ensures FromSlice(MaskLast(Words(n, WordCount(width)), width)) == n
  {
    var k := WordCount(width);
    Pow2Monotone(width, 32 * k);
    FromSliceOfWords(n, k);
    LowOfSmall(n, 32 * k);
    MaskLastIsLow(Words(n, k), width);
    LowOfSmall(n, width);
  }

  /** Reading back the words of a vector gives the vector. */
  lemma WordsRoundTrip(x: LogicArray)
    requires x.Valid()
    ensures FromVpiWords(x.ToVpiWords(), x.width) == x
  {
    var k := WordCount(x.width);
    assert Avals(x.ToVpiWords()) == Words(x.a, k) && Bvals(x.ToVpiWords()) == Words(x.b, k);
    WordsOfPlane(x.a, x.width);
    WordsOfPlane(x.b, x.width);
  }

  /** And the words of a vector read from words are those words, with the unused bits cleared. */
  lemma VpiRoundTrip(ws: seq<(U32, U32)>, width: nat)
    requires |ws| == WordCount(width)
    ensures var out := FromVpiWords(ws, width).ToVpiWords();
            Avals(out) == MaskLast(Avals(ws), width) && Bvals(out) == MaskLast(Bvals(ws), width)
  {
    var x := FromVpiWords(ws, width);
    var k := WordCount(width);
    WordsOfFromSlice(MaskLast(Avals(ws), width));
    WordsOfFromSlice(MaskLast(Bvals(ws), width));
    assert Avals(x.ToVpiWords()) == Words(x.a, k) && Bvals(x.ToVpiWords()) == Words(x.b, k);
  }

  // ---------------------------------------------------------------------------
  // Binary strings
  // ---------------------------------------------------------------------------

  /** The vector a string denotes: the last character is bit 0. */
  function Parse(s: string): LogicArray {
    if s == "" then LogicArray(0, 0, 0)
    else
      var rest := Parse(s[1..]);
      var l := FromChar(s[0]);
      LogicArray(rest.a + ABit(l) * Pow2(|s| - 1), rest.b + BBit(l) * Pow2(|s| - 1), |s|)
  }

  lemma {:induction false} ParseIsValid(s: string)
    ensures Parse(s).Valid() && Parse(s).width == |s|
  {
    if s != "" { ParseIsValid(s[1..]); }
  }

  /** The bits of a plane with one more bit on top. */
  lemma TopBit(n: nat, w: nat, bit: nat, i: nat)
    requires n < Pow2(w) && bit < 2
    ensures i < w ==> Bit(n + bit * Pow2(w), i) == Bit(n, i)
    ensures Bit(n + bit * Pow2(w), w) == (bit == 1)
  {
    BitsOfSum(n, w, i);
    HighBitsClear(n, w, w);
  }

  lemma {:induction false} ParseIndex(s: string, i: nat)
    requires i < |s|
    ensures Parse(s).Index(i) == Some(FromChar(s[|s| - 1 - i]))
  {
    var tail, w, l := s[1..], |s| - 1, FromChar(s[0]);
    var rest := Parse(tail);
    ParseIsValid(tail);
    TopBit(rest.a, w, ABit(l), i);
    TopBit(rest.b, w, BBit(l), i);
    if i < w {
      ParseIndex(tail, i);
      assert tail[|tail| - 1 - i] == s[|s| - 1 - i];
    }
  }

  /** A plane that fits below bit `w`, with bit `w` set or not. */
  function WithTop(n: nat, w: nat, bit: nat): nat { if bit == 1 then SetBit(n, w) else n }

  lemma WithTopAdds(n: nat, w: nat, bit: nat)
    requires n < Pow2(w) && bit < 2
    ensures WithTop(n, w, bit) == n + bit * Pow2(w)
  {
    HighBitsClear(n, w, w);
  }

  /** One more character in front sets bits just above the others. */
  lemma ParseExtends(c: char, tail: string)
    ensures var p, l := Parse(tail), FromChar(c);
            Parse([c] + tail) ==
            LogicArray(WithTop(p.a, |tail|, ABit(l)), WithTop(p.b, |tail|, BBit(l)), |tail| + 1)
  {
    var s, l := [c] + tail, FromChar(c);
    assert s[1..] == tail && s[0] == c && |s| - 1 == |tail|;
    ParseIsValid(tail);
    WithTopAdds(Parse(tail).a, |tail|, ABit(l));
    WithTopAdds(Parse(tail).b, |tail|, BBit(l));
  }

  /** `from_binstr`: set bits from the last character up. */
  method FromBinstr(s: string) returns (x: LogicArray)
    ensures x == Parse(s) && x.Valid()
  {
    var a, b, width := 0, 0, 0;
    ParseIsValid(s);
    while width < |s|
      invariant width <= |s|
      invariant LogicArray(a, b, width) == Parse(s[|s| - width..])
    {
      var c := s[|s| - 1 - width];
      ghost var tail := s[|s| - width..];
      ParseExtends(c, tail);
      assert s[|s| - (width + 1)..] == [c] + tail;
      match FromChar(c) {
        case Zero =>
        case One => a := SetBit(a, width);
        case X =>
          a := SetBit(a, width);
          b := SetBit(b, width);
        case Z => b := SetBit(b, width);
      }
      width := width + 1;
    }
    assert s[|s| - width..] == s;
    x := LogicArray(a, b, width);
  }

  /** The string with each character replaced by the canonical one for its state. */
  function Canonical(s: string): string { seq(|s|, k requires 0 <= k < |s| => ToChar(FromChar(s[k]))) }

  lemma PrintedIndex(x: LogicArray, k: nat)
    requires k < x.width
    ensures |x.ToBinstr()| == x.width && FromChar(x.ToBinstr()[k]) == x.Index(x.width - 1 - k).value
  {
    assert x.ToBinstr()[k] == ToChar(x.Index(x.width - 1 - k).value);
    CharRoundTrip(x.Index(x.width - 1 - k).value);
  }

  lemma CharRoundTrip(l: Logic)
    ensures FromChar(ToChar(l)) == l
  {}

  lemma PrintedThenParsed(x: LogicArray, i: nat)
    requires i < x.width
    ensures |x.ToBinstr()| == x.width && Parse(x.ToBinstr()).Index(i) == x.Index(i)
  {
    PrintedIndex(x, x.width - 1 - i);
    ParseIndex(x.ToBinstr(), i);
  }

  /** Parsing what was printed gives the vector back. */
  lemma BinstrRoundTrip(x: LogicArray)
    requires x.Valid()
    ensures Parse(x.ToBinstr()) == x
  {
    var y := Parse(x.ToBinstr());
    ParseIsValid(x.ToBinstr());
    forall i: nat | i < x.width ensures y.Index(i) == x.Index(i) { PrintedThenParsed(x, i); }
    Extensional(y, x);
  }

  lemma ParsedThenPrinted(x: LogicArray, k: nat, l: Logic)
    requires k < x.width && x.Index(x.width - 1 - k) == Some(l)
    ensures |x.ToBinstr()| == x.width && x.ToBinstr()[k] == ToChar(l)
  {}

  /** Printing what was parsed gives the canonical form of the string. */
  lemma CanonicalRoundTrip(s: string)
    ensures Parse(s).ToBinstr() == Canonical(s)
  {
    var x := Parse(s);
    ParseIsValid(s);
    var t, c := x.ToBinstr(), Canonical(s);
    forall k: nat | k < |s| ensures t[k] == c[k] {
      ParseIndex(s, |s| - 1 - k);
      ParsedThenPrinted(x, k, FromChar(s[k]));
    }
  }

  // ---------------------------------------------------------------------------
  // Integers
  // ---------------------------------------------------------------------------

  /** `from_bigint`: the value reduced modulo 2^width, with no x or z bit. */
  function FromBigint(v: nat, width: nat): LogicArray { LogicArray(v % Pow2(width), 0, width) }

  /** `from_u128`: copy the bits that exist in both; the result is again the value modulo 2^width. */
  method FromU128(v: nat, width: nat) returns (x: LogicArray)
    requires v < Pow2(128)
    ensures x == FromBigint(v, width) && x.Valid()
  {
    var n := if width < 128 then width else 128;
    var a, bit := 0, 0;
    while bit < n
      invariant bit <= n && a == Low(v, bit)
    {
      LowBounded(v, bit);
      HighBitsClear(a, bit, bit);
      LowStep(v, bit);
      if Bit(v, bit) { a := SetBit(a, bit); }
      bit := bit + 1;
    }
    LowBounded(v, n);
    if width >= 128 {
      LowOfSmall(v, 128);
      Pow2Monotone(128, width);
      LowOfSmall(v, width);
    }
    LowIsMod(v, width);
    Pow2Monotone(n, width);
    x := LogicArray(a, 0, width);
  }

  lemma {:induction false} LowStep(v: nat, w: nat)
    ensures Low(v, w + 1) == Low(v, w) + (if Bit(v, w) then Pow2(w) else 0)
    decreases w
  {
    if w > 0 { LowStep(v / 2, w - 1); }
  }

  datatype ValueError = FourState(text: string) | Width(want: nat, have: nat)

  /** `TryFrom<&LogicArray>` for an unsigned type of `bits` bits: higher bits are silently dropped. */
  function ToUnsigned(x: LogicArray, bits: nat): Result<nat, ValueError> {
    if !x.IsResolvable() then Err(FourState(x.ToBinstr())) else Ok(x.a % Pow2(bits))
  }

  /** `TryFrom<&LogicArray>` for `bool`: any nonzero value is true. */
  function ToBool(x: LogicArray): Result<bool, ValueError> {
    if !x.IsResolvable() then Err(FourState(x.ToBinstr())) else Ok(x.a != 0)
  }

  /** The conversion fails exactly on an x or z bit, and otherwise says whether some bit is one. */
  lemma BoolConversion(x: LogicArray)
    requires x.Valid()
    ensures ToBool(x).Ok? <==> forall i: nat :: i < x.width ==> x.Index(i) == Some(Zero) || x.Index(i) == Some(One)
    ensures ToBool(x).Ok? ==> (ToBool(x).value <==> exists i: nat :: x.Index(i) == Some(One))
  {
    if x.b != 0 {
      var i := HasBit(x.b, x.width);
      assert x.Index(i) == Some(X) || x.Index(i) == Some(Z);
    } else {
      forall i: nat | i < x.width ensures x.Index(i) == Some(if Bit(x.a, i) then One else Zero) {
        HighBitsClear(x.b, 0, i);
      }
      if x.a != 0 {
        var i := HasBit(x.a, x.width);
        assert x.Index(i) == Some(One);
      } else {
        forall i: nat ensures x.Index(i) != Some(One) { HighBitsClear(x.a, 0, i); }
      }
    }
  }

  lemma {:induction false} HasBit(n: nat, w: nat) returns (i: nat)
    requires 0 < n < Pow2(w)
    ensures i < w && Bit(n, i)
    decreases w
  {
    if n % 2 == 1 {
      i := 0;
    } else {
      var k := HasBit(n / 2, w - 1);
      i := k + 1;
    }
  }

  /** The conversion fails exactly on an x or z bit, and otherwise keeps the low bits of the value. */
  lemma UnsignedConversion(x: LogicArray, bits: nat, i: nat)
    requires x.Valid()
    ensures ToUnsigned(x, bits).Ok? <==> forall k: nat :: k < x.width ==> x.Index(k) == Some(Zero) || x.Index(k) == Some(One)
    ensures ToUnsigned(x, bits).Err? ==> ToUnsigned(x, bits).error == FourState(x.ToBinstr())
    ensures ToUnsigned(x, bits).Ok? && i < bits ==> (Bit(ToUnsigned(x, bits).value, i) <==> x.Index(i) == Some(One))
    ensures ToUnsigned(x, bits).Ok? ==> ToUnsigned(x, bits).value < Pow2(bits)
  {
    BoolConversion(x);
    LowIsMod(x.a, bits);
    LowBounded(x.a, bits);
    if x.b == 0 && i < bits {
      BitsOfLow(x.a, bits, i);
      HighBitsClear(x.b, 0, i);
      if i >= x.width { HighBitsClear(x.a, x.width, i); }
    }
  }

  /** The encoding of section 38.15 of IEEE 1800-2017, one bit at a time. */
  lemma EncodingTable()
    ensures Parse("0") == LogicArray(0, 0, 1) && Parse("1") == LogicArray(1, 0, 1)
    ensures Parse("z") == LogicArray(0, 1, 1) && Parse("x") == LogicArray(1, 1, 1)
    ensures forall c: char :: c !in "01zZ" ==> FromChar(c) == X
  {
    assert "0"[1..] == "" && "1"[1..] == "" && "z"[1..] == "" && "x"[1..] == "";
  }

  /** An integer that fits survives the trip through a vector; a wider one is reduced to the smaller size. */
  lemma IntegerRoundTrip(v: nat, width: nat, bits: nat)
    ensures ToUnsigned(FromBigint(v, width), bits) == Ok(v % Pow2(if width < bits then width else bits))
  {
    LowIsMod(v, width);
    LowIsMod(Low(v, width), bits);
    LowIsMod(v, if width < bits then width else bits);
    LowOfLow(v, width, bits);
  }

  lemma {:induction false} LowOfLow(v: nat, w: nat, u: nat)
    ensures Low(Low(v, w), u) == Low(v, if w < u then w else u)
    decreases w
  {
    if w > 0 && u > 0 { LowOfLow(v / 2, w - 1, u - 1); } else if w == 0 { LowOfZero(u); }
  }

  lemma {:induction false} LowOfZero(u: nat)
    ensures Low(0, u) == 0
  {
    if u > 0 { LowOfZero(u - 1); }
  }
}
