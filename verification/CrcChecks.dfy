// What the bit-by-bit definition comes to: a reflected CRC is the other kind back to front, and
// every algorithm gives its published value for the digits 1 to 9.
module CrcChecks {
  import opened Bytes
  import opened Registers
  import opened Words
  import opened Crc
  import opened FastCrc

  // Back to front.

  function Mirror(c: Bits): (r: Bits)
    ensures |r| == |c| && forall i :: 0 <= i < |c| ==> r[i] == c[|c| - 1 - i]
  {
    seq(|c|, i requires 0 <= i < |c| => c[|c| - 1 - i])
  }

  lemma MirrorTwice(c: Bits)
    ensures Mirror(Mirror(c)) == c
  {
  }

  lemma MirrorShift(poly: Bits, c: Bits)
    requires |poly| == |c| > 0
    ensures Mirror(ShiftRight(poly, c)) == ShiftLeft(Mirror(poly), Mirror(c))
  {
  }

  lemma {:induction false} MirrorSteps(poly: Bits, c: Bits, n: nat)
    requires |poly| == |c| > 0
    ensures Mirror(RightSteps(poly, c, n)) == LeftSteps(Mirror(poly), Mirror(c), n)
    decreases n
  {
    hide Mirror;
    if n > 0 {
      MirrorShift(poly, c);
      MirrorSteps(poly, ShiftRight(poly, c), n - 1);
    }
  }

  lemma MirrorByte(poly: Bits, c: Bits, b: Bits)
    requires |poly| == |c| >= 8 && |b| == 8
    ensures Mirror(RightByte(poly, c, b)) == LeftByte(Mirror(poly), Mirror(c), Mirror(b))
  {
    hide RightSteps, LeftSteps;
    MirrorSteps(poly, Xor(c, AtLow(b, |c|)), 8);
    assert Mirror(Xor(c, AtLow(b, |c|))) == Xor(Mirror(c), AtHigh(Mirror(b), |c|));
  }

  /** The same bytes, each with its bits turned round. */
  ghost predicate Turned(data: seq<byte>, turned: seq<byte>)
  {
    |data| == |turned| && forall i :: 0 <= i < |data| ==> Bits8(turned[i]) == Mirror(Bits8(data[i]))
  }

  /** The reflected CRC of a message is, back to front, the other kind of CRC of the bytes turned round. */
  lemma {:induction false} MirrorReflected(poly: Bits, c: Bits, data: seq<byte>, turned: seq<byte>)
    requires |poly| == |c| >= 8 && Turned(data, turned)
    ensures Mirror(Reflected(poly, c, data)) == Straight(Mirror(poly), Mirror(c), turned)
    decreases |data|
  {
    hide RightByte, LeftByte, Mirror, Bits8;
    if data != [] {
      var n := |data| - 1;
      MirrorReflected(poly, c, data[..n], turned[..n]);
      MirrorByte(poly, Reflected(poly, c, data[..n]), Bits8(data[n]));
    }
  }

  // Registers of at most 32 bits as words, on which a shift is one operation.

  function StepOf(p: bv32, v: bv32): bv32
  {
    if Odd(v) then Differ(Half(v), p) else Half(v)
  }

  lemma {:induction false} DownOf(v: bv32, w: nat)
    requires w > 0 && Fits(v, w)
    ensures Of(Half(v), w) == Of(v, w)[1..] + [false] && Fits(Half(v), w)
    decreases w
  {
    hide Odd, Half;
    DifferBits(0, 0);
    if w > 1 {
      DownOf(Half(v), w - 1);
    } else {
      assert Fits(Half(v), 0);
      assert Of(Half(v), 1) == [false] + Of(Half(Half(v)), 0);
    }
  }

  lemma ShiftOf(p: bv32, v: bv32, w: nat)
    requires w > 0 && Fits(p, w) && Fits(v, w)
    ensures ShiftRight(Of(p, w), Of(v, w)) == Of(StepOf(p, v), w) && Fits(StepOf(p, v), w)
  {
    hide Odd, Half, Differ, ShiftRight, Xor, Fits;
    DownOf(v, w);
    XorOf(Half(v), p, w);
    FirstOf(v, w);
    hide Of;
    ShiftOfBits(Of(p, w), Of(v, w), Of(Half(v), w));
  }

  lemma FirstOf(v: bv32, w: nat)
    requires w > 0
    ensures Of(v, w)[0] == Odd(v)
  {
    hide Odd, Half;
  }

  lemma ShiftOfBits(poly: Bits, c: Bits, down: Bits)
    requires |poly| == |c| > 0 && down == c[1..] + [false]
    ensures ShiftRight(poly, c) == if c[0] then Xor(down, poly) else down
  {
  }

  function StepsOf(p: bv32, v: bv32, n: nat): bv32
    decreases n
  {
    if n == 0 then v else StepsOf(p, StepOf(p, v), n - 1)
  }

  lemma {:induction false} RightStepsOf(p: bv32, v: bv32, w: nat, n: nat)
    requires w > 0 && Fits(p, w) && Fits(v, w)
    ensures RightSteps(Of(p, w), Of(v, w), n) == Of(StepsOf(p, v, n), w) && Fits(StepsOf(p, v, n), w)
    decreases n
  {
    hide Of, Fits, StepOf, ShiftRight;
    if n > 0 {
      ShiftOf(p, v, w);
      RightStepsOf(p, StepOf(p, v), w, n - 1);
    }
  }

  // A message on words.

  function Eight(p: bv32, v: bv32): bv32
  {
    StepOf(p, StepOf(p, StepOf(p, StepOf(p, StepOf(p, StepOf(p, StepOf(p, StepOf(p, v))))))))
  }

  lemma EightSteps(p: bv32, v: bv32)
    ensures StepsOf(p, v, 8) == Eight(p, v)
  {
    hide StepOf;
  }

  /** The register after the first `n` of the bytes, each of them a word. */
  function RunOf(p: bv32, v: bv32, codes: seq<bv32>, n: nat): bv32
    requires n <= |codes|
    decreases n
  {
    if n == 0 then v else Eight(p, Differ(RunOf(p, v, codes, n - 1), codes[n - 1]))
  }

  lemma {:induction false} WiderOf(b: bv32, n: nat, w: nat)
    requires Fits(b, n) && n <= w
    ensures AtLow(Of(b, n), w) == Of(b, w) && Fits(b, w)
    decreases w
  {
    hide Odd, Half;
    DifferBits(0, 0);
    if n > 0 {
      WiderOf(Half(b), n - 1, w - 1);
      assert Of(b, n) + Zeros(w - n) == [Odd(b)] + (Of(Half(b), n - 1) + Zeros(w - n));
    } else if w > 0 {
      WiderOf(0, 0, w - 1);
      assert Zeros(w) == [false] + Zeros(w - 1);
    }
  }

  lemma {:induction false} ReflectedOf(p: bv32, v: bv32, w: nat, data: seq<byte>, codes: seq<bv32>)
    requires w >= 8 && Fits(p, w) && Fits(v, w) && |codes| == |data|
    requires forall i :: 0 <= i < |data| ==> Bits8(data[i]) == Of(codes[i], 8) && Fits(codes[i], 8)
    ensures var r := RunOf(p, v, codes, |data|); Reflected(Of(p, w), Of(v, w), data) == Of(r, w) && Fits(r, w)
    decreases |data|
  {
    hide Of, Fits, Differ, StepsOf, Eight, RightSteps, AtLow, Bits8, Xor;
    if data != [] {
      var n := |data| - 1;
      ReflectedOf(p, v, w, data[..n], codes[..n]);
      RunPart(p, v, codes, n, n);
      var r := RunOf(p, v, codes, n);
      WiderOf(codes[n], 8, w);
      XorOf(r, codes[n], w);
      RightStepsOf(p, Differ(r, codes[n]), w, 8);
      EightSteps(p, Differ(r, codes[n]));
    }
  }

  lemma {:induction false} RunPart(p: bv32, v: bv32, codes: seq<bv32>, m: nat, n: nat)
    requires n <= m <= |codes|
    ensures RunOf(p, v, codes[..m], n) == RunOf(p, v, codes, n)
    decreases n
  {
    hide Differ, Eight;
    if n > 0 {
      RunPart(p, v, codes, m, n - 1);
    }
  }

  // Numbers.

  /** A number and a word have the same bits. */
  ghost predicate Same(c: nat, v: bv32, w: nat)
  {
    ToBits(c, w) == Of(v, w) && Fits(v, w)
  }

  lemma NoDigit()
    ensures Same(0, 0, 0)
  {
  }

  /** One more hexadecimal digit. */
  lemma Digit(c: nat, v: bv32, w: nat)
    requires Same(c / 16, Half(Half(Half(Half(v)))), w)
    requires (c % 2 == 1) == Odd(v) && (c / 2 % 2 == 1) == Odd(Half(v))
    requires (c / 4 % 2 == 1) == Odd(Half(Half(v))) && (c / 8 % 2 == 1) == Odd(Half(Half(Half(v))))
    ensures Same(c, v, w + 4)
  {
    hide Odd, Half;
    assert c / 2 / 2 == c / 4 && c / 4 / 2 == c / 8 && c / 8 / 2 == c / 16;
    BitMore(c / 8, Half(Half(Half(v))), w);
    BitMore(c / 4, Half(Half(v)), w + 1);
    BitMore(c / 2, Half(v), w + 2);
    BitMore(c, v, w + 3);
  }

  lemma BitMore(c: nat, v: bv32, w: nat)
    requires Same(c / 2, Half(v), w) && (c % 2 == 1) == Odd(v)
    ensures Same(c, v, w + 1)
  {
    hide Odd, Half;
  }

  /** One number is the other back to front. */
  ghost predicate Back(c: nat, d: nat, w: nat)
  {
    d <= Ones(w) && Mirror(ToBits(c, w)) == ToBits(d, w)
  }

  lemma NoDigitBack()
    ensures Back(0, 0, 0)
  {
  }

  lemma BitOf(n: nat, w: nat)
    ensures ToBits(n, w + 1) == [n % 2 == 1] + ToBits(n / 2, w)
  {
  }

  lemma {:induction false} TopBit(d: nat, b: bool, w: nat)
    requires d <= Ones(w)
    ensures var n := if b then d + Ones(w) + 1 else d; n <= Ones(w + 1) && ToBits(n, w + 1) == ToBits(d, w) + [b]
    decreases w
  {
    var n := if b then d + Ones(w) + 1 else d;
    assert Ones(w + 1) == 1 + 2 * Ones(w);
    BitOf(n, w);
    if w > 0 {
      TopBit(d / 2, b, w - 1);
      BitOf(d, w - 1);
      assert Ones(w) == 1 + 2 * Ones(w - 1);
      assert n / 2 == if b then d / 2 + Ones(w - 1) + 1 else d / 2;
      hide ToBits, Ones;
      assert n % 2 == d % 2;
    }
  }

  /** One more bit goes to the other end. */
  lemma BitBack(c: nat, d: nat, b: bool, w: nat)
    requires Back(c, d, w)
    ensures Back(2 * c + if b then 1 else 0, if b then d + Ones(w) + 1 else d, w + 1)
  {
    var n := 2 * c + if b then 1 else 0;
    BitOf(n, w);
    TopBit(d, b, w);
    hide ToBits, Ones;
    assert n / 2 == c && (n % 2 == 1) == b;
    assert Mirror([b] + ToBits(c, w)) == Mirror(ToBits(c, w)) + [b];
  }

  /** Two more bits do, the other way round. */
  lemma PairBack(c: nat, d: nat, x: nat, w: nat)
    requires Back(c, d, w) && x < 4
    ensures Back(4 * c + x, d + Swap(x) * (Ones(w) + 1), w + 2)
  {
    hide Back;
    var b1, b0 := x / 2 == 1, x % 2 == 1;
    var k := Ones(w) + 1;
    assert Ones(w + 1) + 1 == 2 * k;
    BitBack(c, d, b1, w);
    var c1, d1 := 2 * c + (if b1 then 1 else 0), if b1 then d + k else d;
    BitBack(c1, d1, b0, w + 1);
    hide Ones;
    SwapTimes(x, k);
    assert 2 * c1 + (if b0 then 1 else 0) == 4 * c + x;
  }

  function Swap(x: nat): nat
  {
    (if x / 2 == 1 then 1 else 0) + if x % 2 == 1 then 2 else 0
  }

  lemma SwapTimes(x: nat, k: nat)
    ensures Swap(x) * k == (if x / 2 == 1 then k else 0) + if x % 2 == 1 then 2 * k else 0
  {
  }

  lemma FlipSwaps(x: nat)
    requires x < 16
    ensures Flip(x) == Swap(x / 4) + 4 * Swap(x % 4)
  {
  }

  lemma FlipTimes(x: nat, k: nat)
    requires x < 16
    ensures Flip(x) * k == Swap(x / 4) * k + Swap(x % 4) * (4 * k)
  {
    FlipSwaps(x);
    hide Flip, Swap;
    var high, low := Swap(x / 4), Swap(x % 4);
    assert (high + 4 * low) * k == high * k + low * (4 * k);
  }

  lemma DigitSplit(c: nat, x: nat)
    ensures 4 * (4 * c + x / 4) + x % 4 == 16 * c + x
  {
  }

  /** One more digit does, with its bits turned round. */
  lemma DigitBack(c: nat, d: nat, x: nat, w: nat)
    requires Back(c, d, w) && x < 16
    ensures Back(16 * c + x, d + Flip(x) * (Ones(w) + 1), w + 4)
  {
    hide Back, Swap, Flip;
    FlipTimes(x, Ones(w) + 1);
    DigitSplit(c, x);
    var k := Ones(w) + 1;
    assert Ones(w + 1) + 1 == 2 * k && Ones(w + 2) + 1 == 4 * k;
    PairBack(c, d, x / 4, w);
    PairBack(4 * c + x / 4, d + Swap(x / 4) * k, x % 4, w + 2);
  }

  function Flip(x: nat): nat
  {
    (if x / 8 == 1 then 1 else 0) + (if x / 4 % 2 == 1 then 2 else 0) + (if x / 2 % 2 == 1 then 4 else 0)
    + if x % 2 == 1 then 8 else 0
  }

  lemma {:induction false} NotOf(c: nat, w: nat)
    requires c <= Ones(w)
    ensures Not(ToBits(c, w)) == ToBits(Ones(w) - c, w)
    decreases w
  {
    if w > 0 {
      NotOf(c / 2, w - 1);
      assert (Ones(w) - c) / 2 == Ones(w - 1) - c / 2;
    } else {
      assert Not([]) == [];
    }
  }

  // The digits 1 to 9, as they are and with the bits of each byte turned round.

  const DIGITS: seq<byte> := [0x31, 0x32, 0x33, 0x34, 0x35, 0x36, 0x37, 0x38, 0x39]
  const TURNED: seq<byte> := [0x8C, 0x4C, 0xCC, 0x2C, 0xAC, 0x6C, 0xEC, 0x1C, 0x9C]
  const DIGIT_WORDS: seq<bv32> := [0x31, 0x32, 0x33, 0x34, 0x35, 0x36, 0x37, 0x38, 0x39]
  const TURNED_WORDS: seq<bv32> := [0x8C, 0x4C, 0xCC, 0x2C, 0xAC, 0x6C, 0xEC, 0x1C, 0x9C]

  ghost predicate AreWords(data: seq<byte>, codes: seq<bv32>)
  {
    |data| == |codes| && forall i :: 0 <= i < |data| ==> Same(data[i], codes[i], 8)
  }

  lemma DigitsAreWords()
    ensures AreWords(DIGITS, DIGIT_WORDS)
  {
    hide Same;
    NoDigit();
    Digit(0x3, 0x3, 0);
    Digit(0x31, 0x31, 4);
    Digit(0x32, 0x32, 4);
    Digit(0x33, 0x33, 4);
    Digit(0x34, 0x34, 4);
    Digit(0x35, 0x35, 4);
    Digit(0x36, 0x36, 4);
    Digit(0x37, 0x37, 4);
    Digit(0x38, 0x38, 4);
    Digit(0x39, 0x39, 4);
  }

  lemma TurnedAreWords()
    ensures AreWords(TURNED, TURNED_WORDS)
  {
    hide Same;
    NoDigit();
    Digit(0x8, 0x8, 0);
    Digit(0x8C, 0x8C, 4);
    Digit(0x4, 0x4, 0);
    Digit(0x4C, 0x4C, 4);
    Digit(0xC, 0xC, 0);
    Digit(0xCC, 0xCC, 4);
    Digit(0x2, 0x2, 0);
    Digit(0x2C, 0x2C, 4);
    Digit(0xA, 0xA, 0);
    Digit(0xAC, 0xAC, 4);
    Digit(0x6, 0x6, 0);
    Digit(0x6C, 0x6C, 4);
    Digit(0xE, 0xE, 0);
    Digit(0xEC, 0xEC, 4);
    Digit(0x1, 0x1, 0);
    Digit(0x1C, 0x1C, 4);
    Digit(0x9, 0x9, 0);
    Digit(0x9C, 0x9C, 4);
  }

  lemma TurnedDigits()
    ensures Turned(TURNED, DIGITS)
  {
    hide Back, Mirror, ToBits;
    NoDigitBack();
    DigitBack(0, 0, 0x8, 0);
    DigitBack(0x8, 0x1, 0xC, 4);
    DigitBack(0, 0, 0x4, 0);
    DigitBack(0x4, 0x2, 0xC, 4);
    DigitBack(0, 0, 0xC, 0);
    DigitBack(0xC, 0x3, 0xC, 4);
    DigitBack(0, 0, 0x2, 0);
    DigitBack(0x2, 0x4, 0xC, 4);
    DigitBack(0, 0, 0xA, 0);
    DigitBack(0xA, 0x5, 0xC, 4);
    DigitBack(0, 0, 0x6, 0);
    DigitBack(0x6, 0x6, 0xC, 4);
    DigitBack(0, 0, 0xE, 0);
    DigitBack(0xE, 0x7, 0xC, 4);
    DigitBack(0, 0, 0x1, 0);
    DigitBack(0x1, 0x8, 0xC, 4);
    DigitBack(0, 0, 0x9, 0);
    DigitBack(0x9, 0x9, 0xC, 4);
    TurnedBy(TURNED, DIGITS);
  }

  lemma TurnedBy(data: seq<byte>, turned: seq<byte>)
    requires |data| == |turned| && forall i :: 0 <= i < |data| ==> Back(data[i], turned[i], 8)
    ensures Turned(data, turned)
  {
  }

  lemma SameFFFF()
    ensures Same(0xFFFF, 0xFFFF, 16)
  {
    hide Same;
    NoDigit();
    Digit(0xF, 0xF, 0);
    Digit(0xFF, 0xFF, 4);
    Digit(0xFFF, 0xFFF, 8);
    Digit(0xFFFF, 0xFFFF, 12);
  }

  lemma Same8408()
    ensures Same(0x8408, 0x8408, 16)
  {
    hide Same;
    NoDigit();
    Digit(0x8, 0x8, 0);
    Digit(0x84, 0x84, 4);
    Digit(0x840, 0x840, 8);
    Digit(0x8408, 0x8408, 12);
  }

  lemma SameA001()
    ensures Same(0xA001, 0xA001, 16)
  {
    hide Same;
    NoDigit();
    Digit(0xA, 0xA, 0);
    Digit(0xA0, 0xA0, 4);
    Digit(0xA00, 0xA00, 8);
    Digit(0xA001, 0xA001, 12);
  }

  lemma Same6F91()
    ensures Same(0x6F91, 0x6F91, 16)
  {
    hide Same;
    NoDigit();
    Digit(0x6, 0x6, 0);
    Digit(0x6F, 0x6F, 4);
    Digit(0x6F9, 0x6F9, 8);
    Digit(0x6F91, 0x6F91, 12);
  }

  lemma Same4B37()
    ensures Same(0x4B37, 0x4B37, 16)
  {
    hide Same;
    NoDigit();
    Digit(0x4, 0x4, 0);
    Digit(0x4B, 0x4B, 4);
    Digit(0x4B3, 0x4B3, 8);
    Digit(0x4B37, 0x4B37, 12);
  }

  lemma Same2189()
    ensures Same(0x2189, 0x2189, 16)
  {
    hide Same;
    NoDigit();
    Digit(0x2, 0x2, 0);
    Digit(0x21, 0x21, 4);
    Digit(0x218, 0x218, 8);
    Digit(0x2189, 0x2189, 12);
  }

  lemma Same8D94()
    ensures Same(0x8D94, 0x8D94, 16)
  {
    hide Same;
    NoDigit();
    Digit(0x8, 0x8, 0);
    Digit(0x8D, 0x8D, 4);
    Digit(0x8D9, 0x8D9, 8);
    Digit(0x8D94, 0x8D94, 12);
  }

  lemma SameC38C()
    ensures Same(0xC38C, 0xC38C, 16)
  {
    hide Same;
    NoDigit();
    Digit(0xC, 0xC, 0);
    Digit(0xC3, 0xC3, 4);
    Digit(0xC38, 0xC38, 8);
    Digit(0xC38C, 0xC38C, 12);
  }

  lemma SameFFFFFFFF()
    ensures Same(0xFFFF_FFFF, 0xFFFF_FFFF, 32)
  {
    hide Same;
    NoDigit();
    Digit(0xF, 0xF, 0);
    Digit(0xFF, 0xFF, 4);
    Digit(0xFFF, 0xFFF, 8);
    Digit(0xFFFF, 0xFFFF, 12);
    Digit(0xF_FFFF, 0xF_FFFF, 16);
    Digit(0xFF_FFFF, 0xFF_FFFF, 20);
    Digit(0xFFF_FFFF, 0xFFF_FFFF, 24);
    Digit(0xFFFF_FFFF, 0xFFFF_FFFF, 28);
  }

  lemma SameEDB88320()
    ensures Same(0xEDB8_8320, 0xEDB8_8320, 32)
  {
    hide Same;
    NoDigit();
    Digit(0xE, 0xE, 0);
    Digit(0xED, 0xED, 4);
    Digit(0xEDB, 0xEDB, 8);
    Digit(0xEDB8, 0xEDB8, 12);
    Digit(0xE_DB88, 0xE_DB88, 16);
    Digit(0xED_B883, 0xED_B883, 20);
    Digit(0xEDB_8832, 0xEDB_8832, 24);
    Digit(0xEDB8_8320, 0xEDB8_8320, 28);
  }

  lemma Same340BC6D9()
    ensures Same(0x340B_C6D9, 0x340B_C6D9, 32)
  {
    hide Same;
    NoDigit();
    Digit(0x3, 0x3, 0);
    Digit(0x34, 0x34, 4);
    Digit(0x340, 0x340, 8);
    Digit(0x340B, 0x340B, 12);
    Digit(0x3_40BC, 0x3_40BC, 16);
    Digit(0x34_0BC6, 0x34_0BC6, 20);
    Digit(0x340_BC6D, 0x340_BC6D, 24);
    Digit(0x340B_C6D9, 0x340B_C6D9, 28);
  }

  lemma SameFE918591()
    ensures Same(0xFE91_8591, 0xFE91_8591, 32)
  {
    hide Same;
    NoDigit();
    Digit(0xF, 0xF, 0);
    Digit(0xFE, 0xFE, 4);
    Digit(0xFE9, 0xFE9, 8);
    Digit(0xFE91, 0xFE91, 12);
    Digit(0xF_E918, 0xF_E918, 16);
    Digit(0xFE_9185, 0xFE_9185, 20);
    Digit(0xFE9_1859, 0xFE9_1859, 24);
    Digit(0xFE91_8591, 0xFE91_8591, 28);
  }

  lemma SameE0()
    ensures Same(0xE0, 0xE0, 8)
  {
    hide Same;
    NoDigit();
    Digit(0xE, 0xE, 0);
    Digit(0xE0, 0xE0, 4);
  }

  lemma Same2F()
    ensures Same(0x2F, 0x2F, 8)
  {
    hide Same;
    NoDigit();
    Digit(0x2, 0x2, 0);
    Digit(0x2F, 0x2F, 4);
  }

  lemma Back8408()
    ensures Back(0x8408, 0x1021, 16)
  {
    hide Back;
    NoDigitBack();
    DigitBack(0x0, 0x0, 0x8, 0);
    DigitBack(0x8, 0x1, 0x4, 4);
    DigitBack(0x84, 0x21, 0x0, 8);
    DigitBack(0x840, 0x21, 0x8, 12);
  }

  lemma BackA001()
    ensures Back(0xA001, 0x8005, 16)
  {
    hide Back;
    NoDigitBack();
    DigitBack(0x0, 0x0, 0xA, 0);
    DigitBack(0xA, 0x5, 0x0, 4);
    DigitBack(0xA0, 0x5, 0x0, 8);
    DigitBack(0xA00, 0x5, 0x1, 12);
  }

  lemma Back8D94()
    ensures Back(0x8D94, 0x29B1, 16)
  {
    hide Back;
    NoDigitBack();
    DigitBack(0x0, 0x0, 0x8, 0);
    DigitBack(0x8, 0x1, 0xD, 4);
    DigitBack(0x8D, 0xB1, 0x9, 8);
    DigitBack(0x8D9, 0x9B1, 0x4, 12);
  }

  lemma BackC38C()
    ensures Back(0xC38C, 0x31C3, 16)
  {
    hide Back;
    NoDigitBack();
    DigitBack(0x0, 0x0, 0xC, 0);
    DigitBack(0xC, 0x3, 0x3, 4);
    DigitBack(0xC3, 0xC3, 0x8, 8);
    DigitBack(0xC38, 0x1C3, 0xC, 12);
  }

  lemma BackEDB8()
    ensures Back(0xEDB8, 0x1DB7, 16)
  {
    hide Back;
    NoDigitBack();
    DigitBack(0x0, 0x0, 0xE, 0);
    DigitBack(0xE, 0x7, 0xD, 4);
    DigitBack(0xED, 0xB7, 0xB, 8);
    DigitBack(0xEDB, 0xDB7, 0x8, 12);
  }

  lemma BackEDB88320()
    ensures Back(0xEDB8_8320, 0x4C1_1DB7, 32)
  {
    hide Back, Ones;
    BackEDB8();
    OnesAre();
    DigitBack(0xEDB8, 0x1DB7, 0x8, 16);
    DigitBack(0xE_DB88, 0x1_1DB7, 0x3, 20);
    DigitBack(0xED_B883, 0xC1_1DB7, 0x2, 24);
    DigitBack(0xEDB_8832, 0x4C1_1DB7, 0x0, 28);
  }

  lemma BackFE91()
    ensures Back(0xFE91, 0x897F, 16)
  {
    hide Back;
    NoDigitBack();
    DigitBack(0x0, 0x0, 0xF, 0);
    DigitBack(0xF, 0xF, 0xE, 4);
    DigitBack(0xFE, 0x7F, 0x9, 8);
    DigitBack(0xFE9, 0x97F, 0x1, 12);
  }

  lemma BackFE918591()
    ensures Back(0xFE91_8591, 0x89A1_897F, 32)
  {
    hide Back, Ones;
    BackFE91();
    OnesAre();
    DigitBack(0xFE91, 0x897F, 0x8, 16);
    DigitBack(0xF_E918, 0x1_897F, 0x5, 20);
    DigitBack(0xFE_9185, 0xA1_897F, 0x9, 24);
    DigitBack(0xFE9_1859, 0x9A1_897F, 0x1, 28);
  }

  lemma BackE0()
    ensures Back(0xE0, 0x7, 8)
  {
    hide Back;
    NoDigitBack();
    DigitBack(0x0, 0x0, 0xE, 0);
    DigitBack(0xE, 0x7, 0x0, 4);
  }

  lemma Back2F()
    ensures Back(0x2F, 0xF4, 8)
  {
    hide Back;
    NoDigitBack();
    DigitBack(0x0, 0x0, 0x2, 0);
    DigitBack(0x2, 0x4, 0xF, 4);
  }

  lemma NineBytes(p: bv32, v: bv32, c1: bv32, c2: bv32, c3: bv32, c4: bv32, c5: bv32, c6: bv32, c7: bv32, c8: bv32,
                  c9: bv32,
                  r1: bv32, r2: bv32, r3: bv32, r4: bv32, r5: bv32, r6: bv32, r7: bv32, r8: bv32, r9: bv32)
    requires Eight(p, Differ(v, c1)) == r1
    requires Eight(p, Differ(r1, c2)) == r2
    requires Eight(p, Differ(r2, c3)) == r3
    requires Eight(p, Differ(r3, c4)) == r4
    requires Eight(p, Differ(r4, c5)) == r5
    requires Eight(p, Differ(r5, c6)) == r6
    requires Eight(p, Differ(r6, c7)) == r7
    requires Eight(p, Differ(r7, c8)) == r8
    requires Eight(p, Differ(r8, c9)) == r9
    ensures RunOf(p, v, [c1, c2, c3, c4, c5, c6, c7, c8, c9], 9) == r9
  {
    hide Eight, Differ, RunOf;
    var codes := [c1, c2, c3, c4, c5, c6, c7, c8, c9];
    RunFirst(p, v, codes);
    RunNext(p, v, codes, 0);
    RunNext(p, v, codes, 1);
    RunNext(p, v, codes, 2);
    RunNext(p, v, codes, 3);
    RunNext(p, v, codes, 4);
    RunNext(p, v, codes, 5);
    RunNext(p, v, codes, 6);
    RunNext(p, v, codes, 7);
    RunNext(p, v, codes, 8);
  }

  lemma RunNext(p: bv32, v: bv32, codes: seq<bv32>, n: nat)
    requires n < |codes|
    ensures RunOf(p, v, codes, n + 1) == Eight(p, Differ(RunOf(p, v, codes, n), codes[n]))
  {
    hide Eight, Differ;
  }

  lemma OnesMore(w: nat)
    ensures Ones(w + 4) == 16 * Ones(w) + 15
  {
    assert Ones(w + 1) == 1 + 2 * Ones(w) && Ones(w + 2) == 1 + 2 * Ones(w + 1);
    assert Ones(w + 3) == 1 + 2 * Ones(w + 2) && Ones(w + 4) == 1 + 2 * Ones(w + 3);
  }

  lemma OnesAre()
    ensures Ones(16) == 0xFFFF && Ones(20) == 0xF_FFFF && Ones(24) == 0xFF_FFFF && Ones(28) == 0xFFF_FFFF
    ensures Ones(32) == 0xFFFF_FFFF
  {
    OnesMore(0);
    OnesMore(4);
    OnesMore(8);
    OnesMore(12);
    OnesMore(16);
    OnesMore(20);
    OnesMore(24);
    OnesMore(28);
  }

  lemma RunFirst(p: bv32, v: bv32, codes: seq<bv32>)
    ensures RunOf(p, v, codes, 0) == v
  {
  }

  lemma Mcrf4xxRun()
    ensures RunOf(0x8408, 0xFFFF, DIGIT_WORDS, |DIGIT_WORDS|) == 0x6F91
  {
    hide RunOf;
    NineBytes(0x8408, 0xFFFF, 0x31, 0x32, 0x33, 0x34, 0x35, 0x36, 0x37, 0x38, 0x39,
              0x2F8D, 0x4D53, 0x634B, 0x8B13, 0x44BF,
              0x198D, 0x1AC8, 0xF795, 0x6F91);
  }

  lemma KermitRun()
    ensures RunOf(0x8408, 0x0, DIGIT_WORDS, |DIGIT_WORDS|) == 0x2189
  {
    hide RunOf;
    NineBytes(0x8408, 0x0, 0x31, 0x32, 0x33, 0x34, 0x35, 0x36, 0x37, 0x38, 0x39,
              0x200A, 0xBDEB, 0x5A78, 0x8832, 0x7437,
              0x11FD, 0x6947, 0x8B19, 0x2189);
  }

  lemma ModbusRun()
    ensures RunOf(0xA001, 0xFFFF, DIGIT_WORDS, |DIGIT_WORDS|) == 0x4B37
  {
    hide RunOf;
    NineBytes(0xA001, 0xFFFF, 0x31, 0x32, 0x33, 0x34, 0x35, 0x36, 0x37, 0x38, 0x39,
              0x947E, 0xF595, 0x7A75, 0x30BA, 0xA471,
              0x32E4, 0x9D73, 0x37DD, 0x4B37);
  }

  lemma Crc32Run()
    ensures RunOf(0xEDB8_8320, 0xFFFF_FFFF, DIGIT_WORDS, |DIGIT_WORDS|) == 0x340B_C6D9
  {
    hide RunOf;
    NineBytes(0xEDB8_8320, 0xFFFF_FFFF, 0x31, 0x32, 0x33, 0x34, 0x35, 0x36, 0x37, 0x38, 0x39,
              0x7C23_1048, 0xB0AC_BB32, 0x77B7_9C2D, 0x641C_1F5C, 0x340A_C5E3,
              0xF68D_2C9E, 0xAFFC_9660, 0x651F_2550, 0x340B_C6D9);
  }

  lemma CcittRun()
    ensures RunOf(0x8408, 0xFFFF, TURNED_WORDS, |TURNED_WORDS|) == 0x8D94
  {
    hide RunOf;
    NineBytes(0x8408, 0xFFFF, 0x8C, 0x4C, 0xCC, 0x2C, 0xAC, 0x6C, 0xEC, 0x1C, 0x9C,
              0x41E3, 0x5DBC, 0x73DA, 0x92CA, 0x6A2,
              0x2F74, 0x18EE, 0xD485, 0x8D94);
  }

  lemma XmodemRun()
    ensures RunOf(0x8408, 0x0, TURNED_WORDS, |TURNED_WORDS|) == 0xC38C
  {
    hide RunOf;
    NineBytes(0x8408, 0x0, 0x8C, 0x4C, 0xCC, 0x2C, 0xAC, 0x6C, 0xEC, 0x1C, 0x9C,
              0x4E64, 0xAD04, 0x4AE9, 0x91EB, 0x362A,
              0x2704, 0x6B61, 0xA809, 0xC38C);
  }

  lemma CksumRun()
    ensures RunOf(0xEDB8_8320, 0x0, TURNED_WORDS, |TURNED_WORDS|) == 0xFE91_8591
  {
    hide RunOf;
    NineBytes(0xEDB8_8320, 0x0, 0x8C, 0x4C, 0xCC, 0x2C, 0xAC, 0x6C, 0xEC, 0x1C, 0x9C,
              0xE40E_CF0B, 0xE85C_DAFC, 0x2631_6C76, 0x8B98_8986, 0xDB30_515F,
              0xBF0B_5147, 0x41BB_7131, 0x459E_E704, 0xFE91_8591);
  }

  lemma Crc8Run()
    ensures RunOf(0xE0, 0x0, TURNED_WORDS, |TURNED_WORDS|) == 0x2F
  {
    hide RunOf;
    NineBytes(0xE0, 0x0, 0x8C, 0x4C, 0xCC, 0x2C, 0xAC, 0x6C, 0xEC, 0x1C, 0x9C,
              0xE9, 0x4E, 0x3, 0x43, 0xD3,
              0xBF, 0x1E, 0xE3, 0x2F);
  }

  // The values themselves.

  lemma ReflectedIs(p: nat, p': bv32, c: Bits, v: bv32, w: nat, data: seq<byte>, codes: seq<bv32>, r: nat, r': bv32)
    requires w >= 8 && Same(p, p', w) && c == Of(v, w) && Fits(v, w) && AreWords(data, codes)
    requires RunOf(p', v, codes, |data|) == r' && Same(r, r', w)
    ensures Reflected(ToBits(p, w), c, data) == ToBits(r, w)
  {
    hide Of, Fits, RunOf, ToBits, Reflected;
    ReflectedOf(p', v, w, data, codes);
  }

  lemma {:induction false} ZerosOf(w: nat)
    ensures Zeros(w) == Of(0, w) && Fits(0, w) && Mirror(Zeros(w)) == Zeros(w)
  {
    hide Odd, Half, Of;
    DifferBits(0, 0);
    NothingSet(w);
    if w > 0 {
      ZerosOf(w - 1);
    }
  }

  lemma AllSet(v: bv32, w: nat)
    requires w > 0 && Same(Ones(w), v, w)
    ensures AllOnes(w) == Of(v, w) && Fits(v, w) && Mirror(AllOnes(w)) == AllOnes(w)
  {
    EachSet(w);
    assert ToBits(Ones(w), w) == AllOnes(w);
  }

  lemma {:induction false} EachSet(n: nat)
    ensures forall i :: 0 <= i < n ==> ToBits(Ones(n), n)[i]
  {
    if n > 0 {
      EachSet(n - 1);
      var rest := Ones(n - 1);
      assert Ones(n) % 2 == 1 && Ones(n) / 2 == rest;
      assert ToBits(Ones(n), n) == [true] + ToBits(rest, n - 1);
    }
  }

  /** The reflected polynomials are the documented ones back to front. */
  lemma PolynomialsMirrored()
    ensures MCRF4XX.alg.poly == KERMIT.alg.poly == X25.alg.poly == Mirror(CCITT.alg.poly)
    ensures CCITT.alg.poly == XMODEM.alg.poly == ToBits(0x1021, 16)
    ensures MODBUS.alg.poly == Mirror(ToBits(0x8005, 16))
    ensures CRC32.alg.poly == Mirror(CKSUM.alg.poly) && CKSUM.alg.poly == ToBits(0x04C1_1DB7, 32)
  {
    hide ToBits, Mirror;
    Back8408();
    BackA001();
    BackEDB88320();
    MirrorTwice(ToBits(0x8408, 16));
    MirrorTwice(ToBits(0xA001, 16));
    MirrorTwice(ToBits(0xEDB8_8320, 32));
  }

  lemma KermitCheck()
    ensures KERMIT.Valid() && KERMIT.Crc(DIGITS) == ToBits(0x2189, 16)
  {
    hide ToBits, Of, Fits, RunOf, Reflected, AreWords, AllOnes, Zeros, Ones, Mirror;
    CatalogueValid();
    DigitsAreWords();
    Same8408();
    Same2189();
    KermitRun();
    ZerosOf(16);
    ReflectedIs(0x8408, 0x8408, Zeros(16), 0, 16, DIGITS, DIGIT_WORDS, 0x2189, 0x2189);
  }

  lemma Mcrf4xxCheck()
    ensures MCRF4XX.Valid() && MCRF4XX.Crc(DIGITS) == ToBits(0x6F91, 16)
  {
    hide ToBits, Of, Fits, RunOf, Reflected, AreWords, AllOnes, Zeros, Ones, Mirror;
    CatalogueValid();
    DigitsAreWords();
    Same8408();
    Same6F91();
    Mcrf4xxRun();
    OnesAre();
    SameFFFF();
    AllSet(0xFFFF, 16);
    ReflectedIs(0x8408, 0x8408, AllOnes(16), 0xFFFF, 16, DIGITS, DIGIT_WORDS, 0x6F91, 0x6F91);
  }

  lemma X25Check()
    ensures X25.Valid() && X25.Crc(DIGITS) == ToBits(0x906E, 16)
  {
    hide ToBits, Of, Fits, RunOf, Reflected, AreWords, AllOnes, Zeros, Ones, Mirror;
    CatalogueValid();
    DigitsAreWords();
    Same8408();
    Same6F91();
    Mcrf4xxRun();
    OnesAre();
    SameFFFF();
    AllSet(0xFFFF, 16);
    ReflectedIs(0x8408, 0x8408, AllOnes(16), 0xFFFF, 16, DIGITS, DIGIT_WORDS, 0x6F91, 0x6F91);
    OnesAre();
    NotOf(0x6F91, 16);
  }

  lemma ModbusCheck()
    ensures MODBUS.Valid() && MODBUS.Crc(DIGITS) == ToBits(0x4B37, 16)
  {
    hide ToBits, Of, Fits, RunOf, Reflected, AreWords, AllOnes, Zeros, Ones, Mirror;
    CatalogueValid();
    DigitsAreWords();
    SameA001();
    Same4B37();
    ModbusRun();
    OnesAre();
    SameFFFF();
    AllSet(0xFFFF, 16);
    ReflectedIs(0xA001, 0xA001, AllOnes(16), 0xFFFF, 16, DIGITS, DIGIT_WORDS, 0x4B37, 0x4B37);
  }

  lemma Crc32Check()
    ensures CRC32.Valid() && CRC32.Crc(DIGITS) == ToBits(0xCBF4_3926, 32)
  {
    hide ToBits, Of, Fits, RunOf, Reflected, AreWords, AllOnes, Zeros, Ones, Mirror;
    CatalogueValid();
    DigitsAreWords();
    SameEDB88320();
    Same340BC6D9();
    Crc32Run();
    OnesAre();
    SameFFFFFFFF();
    AllSet(0xFFFF_FFFF, 32);
    ReflectedIs(0xEDB8_8320, 0xEDB8_8320, AllOnes(32), 0xFFFF_FFFF, 32, DIGITS, DIGIT_WORDS, 0x340B_C6D9, 0x340B_C6D9);
    OnesAre();
    NotOf(0x340B_C6D9, 32);
  }

  lemma CcittCheck()
    ensures CCITT.Valid() && CCITT.Crc(DIGITS) == ToBits(0x29B1, 16)
  {
    hide ToBits, Of, Fits, RunOf, Reflected, Straight, AreWords, AllOnes, Zeros, Ones, Mirror, Turned;
    CatalogueValid();
    TurnedAreWords();
    TurnedDigits();
    Same8408();
    Same8D94();
    Back8408();
    Back8D94();
    CcittRun();
    OnesAre();
    SameFFFF();
    AllSet(0xFFFF, 16);
    ReflectedIs(0x8408, 0x8408, AllOnes(16), 0xFFFF, 16, TURNED, TURNED_WORDS, 0x8D94, 0x8D94);
    MirrorReflected(ToBits(0x8408, 16), AllOnes(16), TURNED, DIGITS);
  }

  lemma XmodemCheck()
    ensures XMODEM.Valid() && XMODEM.Crc(DIGITS) == ToBits(0x31C3, 16)
  {
    hide ToBits, Of, Fits, RunOf, Reflected, Straight, AreWords, AllOnes, Zeros, Ones, Mirror, Turned;
    CatalogueValid();
    TurnedAreWords();
    TurnedDigits();
    Same8408();
    SameC38C();
    Back8408();
    BackC38C();
    XmodemRun();
    ZerosOf(16);
    ReflectedIs(0x8408, 0x8408, Zeros(16), 0, 16, TURNED, TURNED_WORDS, 0xC38C, 0xC38C);
    MirrorReflected(ToBits(0x8408, 16), Zeros(16), TURNED, DIGITS);
  }

  lemma CksumCheck()
    ensures CKSUM.Valid() && CKSUM.Crc(DIGITS) == ToBits(0x765E_7680, 32)
  {
    hide ToBits, Of, Fits, RunOf, Reflected, Straight, AreWords, AllOnes, Zeros, Ones, Mirror, Turned;
    CatalogueValid();
    TurnedAreWords();
    TurnedDigits();
    SameEDB88320();
    SameFE918591();
    BackEDB88320();
    BackFE918591();
    CksumRun();
    ZerosOf(32);
    ReflectedIs(0xEDB8_8320, 0xEDB8_8320, Zeros(32), 0, 32, TURNED, TURNED_WORDS, 0xFE91_8591, 0xFE91_8591);
    MirrorReflected(ToBits(0xEDB8_8320, 32), Zeros(32), TURNED, DIGITS);
    OnesAre();
    NotOf(0x89A1_897F, 32);
  }

  lemma Crc8Check()
    ensures Straight(CRC8, Zeros(8), DIGITS) == ToBits(0xF4, 8)
  {
    hide ToBits, Of, Fits, RunOf, Reflected, Straight, AreWords, AllOnes, Zeros, Ones, Mirror, Turned;
    CatalogueValid();
    TurnedAreWords();
    TurnedDigits();
    SameE0();
    Same2F();
    BackE0();
    Back2F();
    Crc8Run();
    ZerosOf(8);
    ReflectedIs(0xE0, 0xE0, Zeros(8), 0, 8, TURNED, TURNED_WORDS, 0x2F, 0x2F);
    MirrorReflected(ToBits(0xE0, 8), Zeros(8), TURNED, DIGITS);
  }
}
