// Machine words and the bits they stand for: what the operations on words do to the bits.
module Words {
  import opened Bytes
  import opened Registers

  function Differ(a: bv32, b: bv32): bv32
  {
    a ^ b
  }

  lemma DifferBits(a: bv32, b: bv32)
    ensures Half(Differ(a, b)) == Differ(Half(a), Half(b)) && Odd(Differ(a, b)) == (Odd(a) != Odd(b))
    ensures Differ(0, 0) == 0 && Half(0) == 0 && !Odd(0)
  {
  }

  /** A word has no more bits than the low `w`. */
  predicate Fits(v: bv32, w: nat)
  {
    if w == 0 then v == 0 else Fits(Half(v), w - 1)
  }

  lemma XorMore(a: Bits, b: Bits, x: bool, y: bool)
    requires |a| == |b|
    ensures Xor([x] + a, [y] + b) == [x != y] + Xor(a, b)
  {
  }

  lemma {:induction false} XorOf(a: bv32, b: bv32, w: nat)
    ensures Xor(Of(a, w), Of(b, w)) == Of(Differ(a, b), w)
    ensures Fits(a, w) && Fits(b, w) ==> Fits(Differ(a, b), w)
    decreases w
  {
    hide Odd, Half, Differ, Xor;
    DifferBits(a, b);
    if w > 0 {
      XorOf(Half(a), Half(b), w - 1);
      XorMore(Of(Half(a), w - 1), Of(Half(b), w - 1), Odd(a), Odd(b));
    } else {
      assert Xor([], []) == [];
    }
  }

  // AND, OR and complement.

  function Both(a: bv32, b: bv32): bv32
  {
    a & b
  }

  function Either(a: bv32, b: bv32): bv32
  {
    a | b
  }

  function Flipped(a: bv32): bv32
  {
    !a
  }

  lemma BothHalves(a: bv32, b: bv32)
    ensures Half(Both(a, b)) == Both(Half(a), Half(b))
  {
  }

  lemma BothOdd(a: bv32, b: bv32)
    ensures Odd(Both(a, b)) == (Odd(a) && Odd(b))
  {
  }

  lemma EitherHalves(a: bv32, b: bv32)
    ensures Half(Either(a, b)) == Either(Half(a), Half(b))
  {
  }

  lemma EitherOdd(a: bv32, b: bv32)
    ensures Odd(Either(a, b)) == (Odd(a) || Odd(b))
  {
  }

  /** A bit further up is a bit of the half. */
  lemma BitUp(v: bv32, w: nat, i: nat)
    requires i < w
    ensures Of(v, w)[i] == if i == 0 then Odd(v) else Of(Half(v), w - 1)[i - 1]
  {
    hide Odd, Half;
  }

  lemma {:induction false} BothOf(a: bv32, b: bv32, w: nat, i: nat)
    requires i < w
    ensures Of(Both(a, b), w)[i] == (Of(a, w)[i] && Of(b, w)[i])
    decreases w
  {
    hide Odd, Half, Both, Of;
    BothHalves(a, b);
    BothOdd(a, b);
    BitUp(a, w, i);
    BitUp(b, w, i);
    BitUp(Both(a, b), w, i);
    if i > 0 {
      BothOf(Half(a), Half(b), w - 1, i - 1);
    }
  }

  lemma {:induction false} EitherOf(a: bv32, b: bv32, w: nat, i: nat)
    requires i < w
    ensures Of(Either(a, b), w)[i] == (Of(a, w)[i] || Of(b, w)[i])
    decreases w
  {
    hide Odd, Half, Either, Of;
    EitherHalves(a, b);
    EitherOdd(a, b);
    BitUp(a, w, i);
    BitUp(b, w, i);
    BitUp(Either(a, b), w, i);
    if i > 0 {
      EitherOf(Half(a), Half(b), w - 1, i - 1);
    }
  }

  lemma FlippedDiffers(a: bv32)
    ensures Flipped(a) == Differ(a, 0xFFFF_FFFF)
  {
  }

  /** The bits below bit `n` of a word that is all ones below it. */
  lemma {:induction false} OnesSet(v: bv32, n: nat)
    requires OnesBelow(v, n)
    ensures forall i :: 0 <= i < n ==> Of(v, n)[i]
    decreases n
  {
    hide Odd, Half;
    if n > 0 {
      OnesSet(Half(v), n - 1);
    }
  }

  lemma OnesMore(v: bv32, n: nat)
    requires OnesBelow(Half(v), n) && Odd(v)
    ensures OnesBelow(v, n + 1)
  {
    hide Odd, Half;
  }

  lemma OnesDigit(v: bv32, n: nat)
    requires OnesBelow(Half(Half(Half(Half(v)))), n)
    requires Odd(v) && Odd(Half(v)) && Odd(Half(Half(v))) && Odd(Half(Half(Half(v))))
    ensures OnesBelow(v, n + 4)
  {
    hide Odd, Half;
    OnesMore(Half(Half(Half(v))), n);
    OnesMore(Half(Half(v)), n + 1);
    OnesMore(Half(v), n + 2);
    OnesMore(v, n + 3);
  }

  lemma OnesIn31()
    ensures OnesBelow(0x7FFF_FFFF, 31)
  {
    assert OnesBelow(0x7, 3);
    hide OnesBelow;
    OnesDigit(0x7F, 3);
    OnesDigit(0x7FF, 7);
    OnesDigit(0x7FFF, 11);
    OnesDigit(0x7_FFFF, 15);
    OnesDigit(0x7F_FFFF, 19);
    OnesDigit(0x7FF_FFFF, 23);
    OnesDigit(0x7FFF_FFFF, 27);
  }

  lemma OnesIn32()
    ensures OnesBelow(0xFFFF_FFFF, 32)
  {
    assert OnesBelow(0x7, 3) && Half(0xF) == 0x7 && Odd(0xF);
    assert OnesBelow(0xF, 4);
    hide OnesBelow;
    OnesDigit(0xFF, 4);
    OnesDigit(0xFFF, 8);
    OnesDigit(0xFFFF, 12);
    OnesDigit(0xF_FFFF, 16);
    OnesDigit(0xFF_FFFF, 20);
    OnesDigit(0xFFF_FFFF, 24);
    OnesDigit(0xFFFF_FFFF, 28);
  }

  predicate OnesBelow(v: bv32, n: nat)
  {
    n == 0 || (Odd(v) && OnesBelow(Half(v), n - 1))
  }

  function Low31(v: bv32): bv32
  {
    v & 0x7FFF_FFFF
  }

  lemma Low31Both(v: bv32)
    ensures Low31(v) == Both(v, 0x7FFF_FFFF)
  {
  }

  lemma {:induction false} OfPrefix(v: bv32, n: nat, w: nat)
    requires n <= w
    ensures Of(v, w)[..n] == Of(v, n)
    decreases n
  {
    hide Odd, Half;
    if n > 0 {
      OfPrefix(Half(v), n - 1, w - 1);
    }
  }

  lemma Low31Of(v: bv32, w: nat)
    requires w <= 31
    ensures Of(Low31(v), w) == Of(v, w)
  {
    Low31Both(v);
    OnesIn31();
    OnesSet(0x7FFF_FFFF, 31);
    OfPrefix(0x7FFF_FFFF, w, 31);
    hide Odd, Half, Both, Of, Low31, OnesBelow;
    forall i | 0 <= i < w
      ensures Of(Low31(v), w)[i] == Of(v, w)[i]
    {
      BothOf(v, 0x7FFF_FFFF, w, i);
      assert Of(0x7FFF_FFFF, 31)[..w][i];
    }
  }

  // Addition: what two words have in common is carried one place up.

  function Doubled(v: bv32): bv32
  {
    v << 1
  }

  lemma DoubledBits(v: bv32)
    ensures !Odd(Doubled(v)) && Half(Doubled(v)) == Low31(v)
  {
  }

  /** The sum of two words; a carry is over after `n` places. */
  function PlusBy(a: bv32, b: bv32, n: nat): bv32
    decreases n
  {
    if n == 0 then a else PlusBy(Differ(a, b), Doubled(Both(a, b)), n - 1)
  }

  function Meet(x: Bits, y: Bits): (r: Bits)
    requires |x| == |y|
    ensures |r| == |x| && forall i :: 0 <= i < |r| ==> r[i] == (x[i] && y[i])
  {
    seq(|x|, i requires 0 <= i < |x| => x[i] && y[i])
  }

  lemma {:induction false} DifferAndMeet(x: Bits, y: Bits)
    requires |x| == |y|
    ensures FromBits(x) + FromBits(y) == FromBits(Xor(x, y)) + 2 * FromBits(Meet(x, y))
  {
    if x != [] {
      DifferAndMeet(x[1..], y[1..]);
      assert Xor(x, y)[1..] == Xor(x[1..], y[1..]) && Meet(x, y)[1..] == Meet(x[1..], y[1..]);
    }
  }

  /** The top bit counts for half of what does not fit. */
  lemma {:induction false} TopCounts(x: Bits)
    requires x != []
    ensures FromBits(x) == FromBits(x[..|x| - 1]) + if x[|x| - 1] then Ones(|x| - 1) + 1 else 0
  {
    if |x| > 1 {
      TopCounts(x[1..]);
      assert x[1..][..|x| - 2] == x[..|x| - 1][1..];
    }
  }

  lemma {:induction false} NothingCounts(n: nat)
    ensures FromBits(Zeros(n)) == 0
  {
    if n > 0 {
      NothingCounts(n - 1);
      assert Zeros(n)[1..] == Zeros(n - 1);
    }
  }

  /** A doubled word is its bits one place up. */
  lemma DoubledOf(v: bv32, w: nat)
    requires w <= 31
    ensures Of(Doubled(v), w + 1) == [false] + Of(v, w)
  {
    hide Odd, Half, Low31, Doubled, Of;
    DoubledBits(v);
    OfMore(Doubled(v), w);
    Low31Of(v, w);
  }

  lemma BothIsMeet(a: bv32, b: bv32, w: nat)
    ensures Of(Both(a, b), w) == Meet(Of(a, w), Of(b, w))
  {
    hide Both, Of;
    forall i | 0 <= i < w
      ensures Of(Both(a, b), w)[i] == (Of(a, w)[i] && Of(b, w)[i])
    {
      BothOf(a, b, w, i);
    }
  }

  /** Multiples of a power of two do not show in the bits below it. */
  lemma {:induction false} LowBits(n: nat, k: nat, w: nat)
    ensures ToBits(n + k * (Ones(w) + 1), w) == ToBits(n, w)
    decreases w
  {
    if w > 0 {
      var m := n + k * (Ones(w) + 1);
      assert k * (Ones(w) + 1) == 2 * (k * (Ones(w - 1) + 1));
      LowBits(n / 2, k, w - 1);
      assert m / 2 == n / 2 + k * (Ones(w - 1) + 1) && m % 2 == n % 2;
    }
  }

  lemma CarriedUp(a: bv32, b: bv32)
    ensures var x, y := Of(Differ(a, b), 32), Of(Doubled(Both(a, b)), 32);
      ToBits(FromBits(Of(a, 32)) + FromBits(Of(b, 32)), 32) == ToBits(FromBits(x) + FromBits(y), 32)
  {
    hide Of, Differ, Doubled, Both, FromBits, ToBits, Meet, Xor, Ones;
    var common := Of(Both(a, b), 32);
    XorOf(a, b, 32);
    BothIsMeet(a, b, 32);
    DifferAndMeet(Of(a, 32), Of(b, 32));
    DoubledOf(Both(a, b), 31);
    OfPrefix(Both(a, b), 31, 32);
    TopCounts(common);
    UpOne(common[..31]);
    TwiceTop();
    var x, y := FromBits(Of(Differ(a, b), 32)), FromBits(Of(Doubled(Both(a, b)), 32));
    LowBits(x + y, if common[31] then 1 else 0, 32);
  }

  lemma UpOne(x: Bits)
    ensures FromBits([false] + x) == 2 * FromBits(x)
  {
    assert ([false] + x)[1..] == x;
  }

  lemma TwiceTop()
    ensures 2 * (Ones(31) + 1) == Ones(32) + 1
  {
    assert Ones(31 + 1) == 1 + 2 * Ones(31);
  }

  lemma {:induction false} SumOf(a: bv32, b: bv32, n: nat)
    requires n <= 32 && Of(b, 32 - n) == Zeros(32 - n)
    ensures ToBits(FromBits(Of(a, 32)) + FromBits(Of(b, 32)), 32) == Of(PlusBy(a, b, n), 32)
    decreases n
  {
    hide Of, Differ, Doubled, Both, FromBits, ToBits, Zeros;
    if n == 0 {
      NothingCounts(32);
      ToFrom(Of(a, 32));
    } else {
      CarriedUp(a, b);
      DoubledOf(Both(a, b), 32 - n);
      BothIsMeet(a, b, 32 - n);
      NothingMet(Of(a, 32 - n), Zeros(32 - n));
      SumOf(Differ(a, b), Doubled(Both(a, b)), n - 1);
    }
  }

  lemma NothingMet(x: Bits, y: Bits)
    requires |x| == |y| && y == Zeros(|y|)
    ensures [false] + Meet(x, y) == Zeros(|x| + 1)
  {
  }

  lemma {:induction false} NothingSet(w: nat)
    ensures Of(0, w) == Zeros(w)
  {
    hide Odd, Half;
    DifferBits(0, 0);
    if w > 0 {
      NothingSet(w - 1);
      assert Zeros(w) == [false] + Zeros(w - 1);
    }
  }

  // Two places of an addition at once.

  function Carried(a: bv32, b: bv32): bv32
  {
    (a & b) << 1
  }

  lemma CarriedIs(a: bv32, b: bv32)
    ensures Carried(a, b) == Doubled(Both(a, b))
  {
  }

  function SumTwo(a: bv32, b: bv32): bv32
  {
    Differ(Differ(a, b), Carried(a, b))
  }

  function CarryTwo(a: bv32, b: bv32): bv32
  {
    Carried(Differ(a, b), Carried(a, b))
  }

  lemma TwoPlaces(a: bv32, b: bv32, n: nat)
    ensures PlusBy(a, b, n + 2) == PlusBy(SumTwo(a, b), CarryTwo(a, b), n)
  {
    hide Differ, Doubled, Both, Carried;
    var s, k := Differ(a, b), Carried(a, b);
    CarriedIs(a, b);
    CarriedIs(s, k);
    assert PlusBy(a, b, n + 2) == PlusBy(s, k, n + 1);
  }

  /** The sum of two words. */
  function Plus(a: bv32, b: bv32): bv32
  {
    var s1, k1 := SumTwo(a, b), CarryTwo(a, b);
    var s2, k2 := SumTwo(s1, k1), CarryTwo(s1, k1);
    var s3, k3 := SumTwo(s2, k2), CarryTwo(s2, k2);
    var s4, k4 := SumTwo(s3, k3), CarryTwo(s3, k3);
    var s5, k5 := SumTwo(s4, k4), CarryTwo(s4, k4);
    var s6, k6 := SumTwo(s5, k5), CarryTwo(s5, k5);
    var s7, k7 := SumTwo(s6, k6), CarryTwo(s6, k6);
    var s8, k8 := SumTwo(s7, k7), CarryTwo(s7, k7);
    var s9, k9 := SumTwo(s8, k8), CarryTwo(s8, k8);
    var s10, k10 := SumTwo(s9, k9), CarryTwo(s9, k9);
    var s11, k11 := SumTwo(s10, k10), CarryTwo(s10, k10);
    var s12, k12 := SumTwo(s11, k11), CarryTwo(s11, k11);
    var s13, k13 := SumTwo(s12, k12), CarryTwo(s12, k12);
    var s14, k14 := SumTwo(s13, k13), CarryTwo(s13, k13);
    var s15, k15 := SumTwo(s14, k14), CarryTwo(s14, k14);
    SumTwo(s15, k15)
  }

  lemma PlusIs(a: bv32, b: bv32)
    ensures Plus(a, b) == PlusBy(a, b, 32)
  {
    hide SumTwo, CarryTwo, PlusBy;
    TwoPlaces(a, b, 30);
    var s1, k1 := SumTwo(a, b), CarryTwo(a, b);
    TwoPlaces(s1, k1, 28);
    var s2, k2 := SumTwo(s1, k1), CarryTwo(s1, k1);
    TwoPlaces(s2, k2, 26);
    var s3, k3 := SumTwo(s2, k2), CarryTwo(s2, k2);
    TwoPlaces(s3, k3, 24);
    var s4, k4 := SumTwo(s3, k3), CarryTwo(s3, k3);
    TwoPlaces(s4, k4, 22);
    var s5, k5 := SumTwo(s4, k4), CarryTwo(s4, k4);
    TwoPlaces(s5, k5, 20);
    var s6, k6 := SumTwo(s5, k5), CarryTwo(s5, k5);
    TwoPlaces(s6, k6, 18);
    var s7, k7 := SumTwo(s6, k6), CarryTwo(s6, k6);
    TwoPlaces(s7, k7, 16);
    var s8, k8 := SumTwo(s7, k7), CarryTwo(s7, k7);
    TwoPlaces(s8, k8, 14);
    var s9, k9 := SumTwo(s8, k8), CarryTwo(s8, k8);
    TwoPlaces(s9, k9, 12);
    var s10, k10 := SumTwo(s9, k9), CarryTwo(s9, k9);
    TwoPlaces(s10, k10, 10);
    var s11, k11 := SumTwo(s10, k10), CarryTwo(s10, k10);
    TwoPlaces(s11, k11, 8);
    var s12, k12 := SumTwo(s11, k11), CarryTwo(s11, k11);
    TwoPlaces(s12, k12, 6);
    var s13, k13 := SumTwo(s12, k12), CarryTwo(s12, k12);
    TwoPlaces(s13, k13, 4);
    var s14, k14 := SumTwo(s13, k13), CarryTwo(s13, k13);
    TwoPlaces(s14, k14, 2);
    var s15, k15 := SumTwo(s14, k14), CarryTwo(s14, k14);
    TwoPlaces(s15, k15, 0);
    PlusOver(SumTwo(s15, k15), CarryTwo(s15, k15));
  }

  lemma PlusOver(a: bv32, b: bv32)
    ensures PlusBy(a, b, 0) == a
  {
  }

  // Turning.

  function TurnOne(x: bv32): bv32
  {
    (x << 1) | (x >> 31)
  }

  function Top(x: bv32): bool
  {
    x & 0x8000_0000 != 0
  }

  lemma TurnOneBits(x: bv32)
    ensures Odd(TurnOne(x)) == Top(x) && Half(TurnOne(x)) == Low31(x)
  {
  }

  function Halves(x: bv32, n: nat): bv32
    decreases n
  {
    if n == 0 then x else Half(Halves(x, n - 1))
  }

  lemma {:induction false} HalvesOf(x: bv32, n: nat, w: nat)
    requires n <= w
    ensures Of(x, w) == Of(x, n) + Of(Halves(x, n), w - n)
    decreases n
  {
    hide Half, Of;
    if n > 0 {
      HalvesOf(x, n - 1, w);
      HalvesOf(x, n - 1, n);
      var h := Halves(x, n - 1);
      OfMore(h, w - n);
      OfMore(h, 0);
      NothingOf(Half(h));
      ThreeJoined(Of(x, n - 1), Odd(h), Of(Half(h), w - n));
    } else {
      NothingOf(x);
      assert [] + Of(x, w) == Of(x, w);
    }
  }

  lemma OfMore(v: bv32, w: nat)
    ensures Of(v, w + 1) == [Odd(v)] + Of(Half(v), w)
  {
    hide Odd, Half;
  }

  lemma NothingOf(v: bv32)
    ensures Of(v, 0) == []
  {
  }

  lemma ThreeJoined(a: Bits, x: bool, b: Bits)
    ensures a + ([x] + b) == (a + ([x] + [])) + b
  {
  }

  lemma TopOf(x: bv32)
    ensures Of(x, 32)[31] == Top(x)
  {
    HalvesOf(x, 31, 32);
    TopHalves(x);
    hide Odd, Half, Halves, Top;
    assert Of(Halves(x, 31), 1)[0] == Odd(Halves(x, 31));
  }

  lemma HalvesShift(x: bv32)
    ensures Halves(x, 4) == x >> 4 && Halves(x, 8) == x >> 8
  {
    hide Half;
    HalfFour(x);
    HalfFour(x >> 4);
    HalvesAdd(x, 4, 4);
    FourAndFour(x);
  }

  lemma HalfFour(x: bv32)
    ensures Half(Half(Half(Half(x)))) == x >> 4
  {
  }

  lemma FourAndFour(x: bv32)
    ensures (x >> 4) >> 4 == x >> 8
  {
  }

  lemma {:induction false} HalvesAdd(x: bv32, m: nat, n: nat)
    ensures Halves(Halves(x, m), n) == Halves(x, m + n)
    decreases n
  {
    hide Half;
    if n > 0 {
      HalvesAdd(x, m, n - 1);
    }
  }

  lemma TopHalves(x: bv32)
    ensures Odd(Halves(x, 31)) == Top(x)
  {
    HalvesShift(x);
    HalvesShift(x >> 8);
    HalvesShift(x >> 16);
    HalvesAdd(x, 8, 8);
    HalvesAdd(x, 16, 8);
    HalvesAdd(x, 24, 7);
    assert (x >> 8) >> 8 == x >> 16 && (x >> 16) >> 8 == x >> 24;
    LastSeven(x >> 24);
    assert (x >> 24) >> 7 == x >> 31;
    assert ((x >> 31) & 1 != 0) == (x & 0x8000_0000 != 0);
  }

  lemma LastSeven(x: bv32)
    ensures Halves(x, 7) == x >> 7
  {
    HalvesShift(x);
    assert Halves(x, 7) == Half(Half(Half(Halves(x, 4))));
  }

  lemma TurnOneOf(x: bv32)
    ensures Of(TurnOne(x), 32) == Of(x, 32)[31..] + Of(x, 32)[..31]
  {
    TurnOneBits(x);
    TopOf(x);
    Low31Of(x, 31);
    OfPrefix(x, 31, 32);
    hide Odd, Half, Top, TurnOne, Low31;
    assert Of(TurnOne(x), 32) == [Odd(TurnOne(x))] + Of(Half(TurnOne(x)), 31);
    assert Of(x, 32)[31..] == [Of(x, 32)[31]];
  }

  function TurnBy(x: bv32, s: nat): bv32
    decreases s
  {
    if s == 0 then x else TurnOne(TurnBy(x, s - 1))
  }

  lemma {:induction false} TurnByOf(x: bv32, s: nat)
    requires s <= 32
    ensures Of(TurnBy(x, s), 32) == Of(x, 32)[32 - s..] + Of(x, 32)[..32 - s]
    decreases s
  {
    hide TurnOne, Of;
    if s > 0 {
      TurnByOf(x, s - 1);
      TurnOneOf(TurnBy(x, s - 1));
      TurnMore(Of(x, 32), s);
    }
  }

  lemma TurnMore(v: Bits, s: nat)
    requires |v| == 32 && 0 < s <= 32
    ensures var u := v[33 - s..] + v[..33 - s]; u[31..] + u[..31] == v[32 - s..] + v[..32 - s]
  {
    var u := v[33 - s..] + v[..33 - s];
    assert u[31..] == [v[32 - s]];
    assert u[..31] == v[33 - s..] + v[..32 - s];
  }
}
