// Table-driven CRCs. The register is kept low byte first for every algorithm, so the ones
// that shift left run on a byte-swapped state. Four tables, each the one before it a byte
// later, take in four bytes with four lookups.
module Slicing {
  import opened Registers
  import opened Crc

  // The algebra: any linear step `f` on registers of `w` bits.

  function Iterate(f: Bits -> Bits, v: Bits, n: nat): Bits
    decreases n, |v|
  {
    if n == 0 then v else f(Iterate(f, v, n - 1))
  }

  ghost predicate Linear(f: Bits -> Bits, w: nat)
  {
    && (forall x {:trigger f(x)} :: |x| == w ==> |f(x)| == w)
    && (forall x, y {:trigger f(Xor(x, y))} :: |x| == |y| == w ==> f(Xor(x, y)) == Xor(f(x), f(y)))
  }

  /** A register whose low byte is clear just moves down by a byte. */
  ghost predicate Moves(f: Bits -> Bits, w: nat)
  {
    forall h {:trigger f(Zeros(8) + h)} :: |h| == w - 8 ==> f(Zeros(8) + h) == h + Zeros(8)
  }

  lemma {:induction false} IterateWidth(f: Bits -> Bits, v: Bits, n: nat)
    requires Linear(f, |v|)
    ensures |Iterate(f, v, n)| == |v|
    decreases n
  {
    if n > 0 {
      IterateWidth(f, v, n - 1);
    }
  }

  lemma {:induction false} IterateLinear(f: Bits -> Bits, x: Bits, y: Bits, n: nat)
    requires |x| == |y| && Linear(f, |x|)
    ensures |Iterate(f, x, n)| == |Iterate(f, y, n)| == |x|
    ensures Iterate(f, Xor(x, y), n) == Xor(Iterate(f, x, n), Iterate(f, y, n))
    decreases n
  {
    if n > 0 {
      IterateLinear(f, x, y, n - 1);
    }
  }

  lemma {:induction false} IterateFirst(f: Bits -> Bits, v: Bits, n: nat)
    ensures Iterate(f, f(v), n) == Iterate(f, v, n + 1)
    decreases n
  {
    if n > 0 {
      IterateFirst(f, v, n - 1);
    }
  }

  /** Byte `e` mixed into a register that then runs on. */
  lemma MixedIn(f: Bits -> Bits, s: Bits, e: Bits, n: nat)
    requires |s| == |e| && Linear(f, |s|)
    ensures |Iterate(f, s, n + 1)| == |Iterate(f, e, n + 1)| == |s|
    ensures Iterate(f, f(Xor(s, e)), n) == Xor(Iterate(f, s, n + 1), Iterate(f, e, n + 1))
  {
    IterateFirst(f, Xor(s, e), n);
    IterateLinear(f, s, e, n + 1);
  }

  /** Taking the low byte out of a register. */
  lemma Peel(f: Bits -> Bits, v: Bits, n: nat)
    requires |v| >= 8 && Linear(f, |v|) && Moves(f, |v|) && n > 0
    ensures |Iterate(f, AtLow(v[..8], |v|), n)| == |Iterate(f, v[8..] + Zeros(8), n - 1)| == |v|
    ensures Iterate(f, v, n) == Xor(Iterate(f, AtLow(v[..8], |v|), n), Iterate(f, v[8..] + Zeros(8), n - 1))
  {
    var low, high := AtLow(v[..8], |v|), Zeros(8) + v[8..];
    assert v == Xor(low, high);
    IterateLinear(f, low, high, n);
    IterateFirst(f, high, n - 1);
    assert f(high) == v[8..] + Zeros(8);
  }

  /** Four bytes taken in one after the other. */
  lemma FourBytes(f: Bits -> Bits, s: Bits, e0: Bits, e1: Bits, e2: Bits, e3: Bits)
    requires |s| == |e0| == |e1| == |e2| == |e3| && Linear(f, |s|)
    ensures |Iterate(f, s, 4)| == |Iterate(f, e0, 4)| == |Iterate(f, e1, 3)| == |Iterate(f, e2, 2)|
         == |Iterate(f, e3, 1)| == |s|
    ensures f(Xor(f(Xor(f(Xor(f(Xor(s, e0)), e1)), e2)), e3)) ==
      Xor(Xor(Xor(Xor(Iterate(f, s, 4), Iterate(f, e0, 4)), Iterate(f, e1, 3)), Iterate(f, e2, 2)), Iterate(f, e3, 1))
  {
    var s1 := f(Xor(s, e0));
    var s2 := f(Xor(s1, e1));
    var s3 := f(Xor(s2, e2));
    var s4 := f(Xor(s3, e3));
    MixedIn(f, s, e0, 3);
    MixedIn(f, s1, e1, 2);
    MixedIn(f, s2, e2, 1);
    MixedIn(f, s3, e3, 0);
    assert Iterate(f, s4, 0) == s4;
  }

  /** A register `n` bytes later, taken apart byte by byte. */
  ghost function PeelSum(f: Bits -> Bits, v: Bits, n: nat): (r: Bits)
    requires |v| >= 8 && Linear(f, |v|)
    ensures |r| == |v|
    decreases n, |v|
  {
    if n == 0 then v
    else
      var low := AtLow(v[..8], |v|);
      IterateWidth(f, low, n);
      Xor(Iterate(f, low, n), PeelSum(f, v[8..] + Zeros(8), n - 1))
  }

  lemma {:induction false} PeelAll(f: Bits -> Bits, v: Bits, n: nat)
    requires |v| >= 8 && Linear(f, |v|) && Moves(f, |v|)
    ensures Iterate(f, v, n) == PeelSum(f, v, n)
    decreases n
  {
    if n > 0 {
      Peel(f, v, n);
      PeelAll(f, v[8..] + Zeros(8), n - 1);
    }
  }

  /** A register as a window on a longer string of bits: after `k` bytes the window has moved
      on by as many. */
  function Window(s: Bits, k: nat): (r: Bits)
    requires k <= 4
    ensures |r| == |s|
  {
    (s + Zeros(40))[8 * k..8 * k + |s|]
  }

  /** Byte `k` of a register, on its own. */
  function LowByte(s: Bits, k: nat): (r: Bits)
    requires 8 <= |s| <= 32 && k < 4
    ensures |r| == |s|
  {
    AtLow(AtLow(s, 32)[8 * k..8 * k + 8], |s|)
  }

  lemma WindowMoves(s: Bits, k: nat)
    requires 8 <= |s| <= 32 && k < 4
    ensures AtLow(Window(s, k)[..8], |s|) == LowByte(s, k)
    ensures Window(s, k)[8..] + Zeros(8) == Window(s, k + 1)
  {
    assert Window(s, k)[..8] == AtLow(s, 32)[8 * k..8 * k + 8];
  }

  lemma WindowEnds(s: Bits)
    requires 8 <= |s| <= 32
    ensures Window(s, 0) == s && Window(s, 4) == Zeros(|s|)
  {
  }

  lemma PeelWindow(f: Bits -> Bits, s: Bits, k: nat, n: nat)
    requires 8 <= |s| <= 32 && k < 4 && Linear(f, |s|) && n > 0
    ensures |Iterate(f, LowByte(s, k), n)| == |s|
    ensures PeelSum(f, Window(s, k), n) == Xor(Iterate(f, LowByte(s, k), n), PeelSum(f, Window(s, k + 1), n - 1))
  {
    WindowMoves(s, k);
    IterateWidth(f, LowByte(s, k), n);
  }

  lemma PeelFirst(f: Bits -> Bits, s: Bits, n: nat)
    requires 8 <= |s| <= 32 && Linear(f, |s|) && Moves(f, |s|) && n > 0
    ensures |Iterate(f, LowByte(s, 0), n)| == |s|
    ensures Iterate(f, s, n) == Xor(Iterate(f, LowByte(s, 0), n), PeelSum(f, Window(s, 1), n - 1))
  {
    WindowEnds(s);
    PeelAll(f, s, n);
    PeelWindow(f, s, 0, n);
  }

  lemma PeelLast(f: Bits -> Bits, s: Bits, n: nat)
    requires 8 <= |s| <= 32 && Linear(f, |s|) && n == 1
    ensures |Iterate(f, LowByte(s, 3), n)| == |s|
    ensures PeelSum(f, Window(s, 3), n) == Xor(Iterate(f, LowByte(s, 3), n), Zeros(|s|))
  {
    WindowEnds(s);
    PeelWindow(f, s, 3, n);
  }

  /** A register of at most four bytes, four bytes later, taken apart byte by byte. */
  lemma PeelFour(f: Bits -> Bits, s: Bits)
    requires 8 <= |s| <= 32 && Linear(f, |s|) && Moves(f, |s|)
    ensures var a3, a2, a1, a0 := Iterate(f, LowByte(s, 0), 4), Iterate(f, LowByte(s, 1), 3),
                                  Iterate(f, LowByte(s, 2), 2), Iterate(f, LowByte(s, 3), 1);
            && |a3| == |a2| == |a1| == |a0| == |s|
            && Iterate(f, s, 4) == Xor(Xor(Xor(a3, a2), a1), a0)
  {
    PeelFirst(f, s, 4);
    PeelWindow(f, s, 1, 3);
    PeelWindow(f, s, 2, 2);
    PeelLast(f, s, 1);
    XorChain(Iterate(f, LowByte(s, 0), 4), Iterate(f, LowByte(s, 1), 3),
             Iterate(f, LowByte(s, 2), 2), Iterate(f, LowByte(s, 3), 1),
             Iterate(f, s, 4), PeelSum(f, Window(s, 1), 3), PeelSum(f, Window(s, 2), 2), PeelSum(f, Window(s, 3), 1));
  }

  lemma XorChain(a: Bits, b: Bits, c: Bits, d: Bits, q0: Bits, q1: Bits, q2: Bits, q3: Bits)
    requires |a| == |b| == |c| == |d| == |q1| == |q2| == |q3|
    requires q0 == Xor(a, q1) && q1 == Xor(b, q2) && q2 == Xor(c, q3) && q3 == Xor(d, Zeros(|d|))
    ensures q0 == Xor(Xor(Xor(a, b), c), d)
  {
  }

  // The algorithms.

  datatype Algorithm = Algorithm(poly: Bits, reflected: bool)
  {
    predicate Valid()
    {
      Whole(poly)
    }

    function Width(): nat
    {
      |poly|
    }

    /** An entry of the first table: what one byte on its own turns into. */
    function Table0(x: Bits): (r: Bits)
      requires Valid() && |x| == 8
      ensures |r| == Width()
    {
      if reflected then RightSteps(poly, AtLow(x, Width()), |x|)
      else Rev(LeftSteps(poly, AtHigh(x, Width()), |x|))
    }

    /** A register after one more byte of zeros. */
    function Next(v: Bits): (r: Bits)
      requires Valid() && |v| == Width()
      ensures |r| == Width()
    {
      Xor(v[8..] + Zeros(8), Table0(v[..8]))
    }

    /** Entry `x` of table `k`, at `table[x + 0x100 * k]`: the byte, `k` bytes later. */
    function Slice(k: nat, x: Bits): (r: Bits)
      requires Valid() && |x| == 8
    {
      Iterate(Step(), AtLow(x, Width()), k + 1)
    }

    /** `crc = (crc >> 8) ^ table[(crc & 0xff) ^ b]` */
    function FastByte(s: Bits, b: Bits): (r: Bits)
      requires Valid() && |s| == Width() && |b| == 8
      ensures |r| == Width()
    {
      Xor(s[8..] + Zeros(8), Table0(Xor(s[..8], b)))
    }

    /** `Next` as a function value. */
    function Step(): Bits -> Bits
    {
      v => if Valid() && |v| == Width() then Next(v) else v
    }
  }

  lemma Table0Linear(alg: Algorithm, x: Bits, y: Bits)
    requires alg.Valid() && |x| == |y| == 8
    ensures alg.Table0(Xor(x, y)) == Xor(alg.Table0(x), alg.Table0(y))
  {
    var w := alg.Width();
    if alg.reflected {
      assert AtLow(Xor(x, y), w) == Xor(AtLow(x, w), AtLow(y, w));
      RightStepsLinear(alg.poly, AtLow(x, w), AtLow(y, w), |x|);
    } else {
      assert AtHigh(Xor(x, y), w) == Xor(AtHigh(x, w), AtHigh(y, w));
      LeftStepsLinear(alg.poly, AtHigh(x, w), AtHigh(y, w), |x|);
      RevLinear(LeftSteps(alg.poly, AtHigh(x, w), |x|), LeftSteps(alg.poly, AtHigh(y, w), |x|));
    }
  }

  /** With the table's values given, a step of the register is linear ... */
  lemma MixLinear(x: Bits, y: Bits, tx: Bits, ty: Bits)
    requires |x| == |y| == |tx| == |ty| >= 8
    ensures Xor(x, y)[..8] == Xor(x[..8], y[..8])
    ensures Xor(Xor(x, y)[8..] + Zeros(8), Xor(tx, ty)) == Xor(Xor(x[8..] + Zeros(8), tx), Xor(y[8..] + Zeros(8), ty))
  {
  }

  lemma NextLinear(alg: Algorithm, x: Bits, y: Bits)
    requires alg.Valid() && |x| == |y| == alg.Width()
    ensures alg.Next(Xor(x, y)) == Xor(alg.Next(x), alg.Next(y))
  {
    MixLinear(x, y, alg.Table0(x[..8]), alg.Table0(y[..8]));
    Table0Linear(alg, x[..8], y[..8]);
  }

  lemma Table0OfZero(alg: Algorithm)
    requires alg.Valid()
    ensures alg.Table0(Zeros(8)) == Zeros(alg.Width())
  {
    Table0Linear(alg, Zeros(8), Zeros(8));
    assert Xor(Zeros(8), Zeros(8)) == Zeros(8);
    XorSelf(alg.Table0(Zeros(8)));
  }

  lemma XorSelf(a: Bits)
    ensures Xor(a, a) == Zeros(|a|)
  {
  }

  lemma NextMoves(alg: Algorithm, h: Bits)
    requires alg.Valid() && |h| == alg.Width() - 8
    ensures alg.Next(Zeros(8) + h) == h + Zeros(8)
  {
    Table0OfZero(alg);
    assert (Zeros(8) + h)[..8] == Zeros(8) && (Zeros(8) + h)[8..] == h;
  }

  lemma StepLinear(alg: Algorithm)
    requires alg.Valid()
    ensures Linear(alg.Step(), alg.Width()) && Moves(alg.Step(), alg.Width())
  {
    var f, w := alg.Step(), alg.Width();
    forall x, y | |x| == |y| == w
      ensures f(Xor(x, y)) == Xor(f(x), f(y))
    {
      NextLinear(alg, x, y);
    }
    forall h | |h| == w - 8
      ensures f(Zeros(8) + h) == h + Zeros(8)
    {
      NextMoves(alg, h);
    }
  }

  lemma StepIsNext(alg: Algorithm, v: Bits)
    requires alg.Valid() && |v| == alg.Width()
    ensures alg.Step()(v) == alg.Next(v)
  {
  }

  /** The tables start from the bit-at-a-time definition, and each is the one before it, a
      byte later. */
  lemma SliceRecurrence(alg: Algorithm, k: nat, x: Bits)
    requires alg.Valid() && |x| == 8
    ensures |alg.Slice(k, x)| == alg.Width()
    ensures alg.Slice(0, x) == alg.Table0(x)
    ensures alg.Slice(k + 1, x) == alg.Next(alg.Slice(k, x))
  {
    var f, v := alg.Step(), AtLow(x, alg.Width());
    StepLinear(alg);
    IterateWidth(f, v, k + 1);
    StepIsNext(alg, alg.Slice(k, x));
    StepIsNext(alg, v);
    NextOfByte(alg, x);
    assert Iterate(f, v, 0) == v;
  }

  lemma NextOfByte(alg: Algorithm, x: Bits)
    requires alg.Valid() && |x| == 8
    ensures alg.Next(AtLow(x, alg.Width())) == alg.Table0(x)
  {
    var v, t := AtLow(x, alg.Width()), alg.Table0(x);
    assert v[..8] == x && v[8..] + Zeros(8) == Zeros(alg.Width());
    assert Xor(Zeros(alg.Width()), t) == t;
  }

  /** Four lookups for a word of four bytes (`crc_n4`, `crc_n4d`): a 16-bit register is mixed
      with the word's low half only. */
  function FastWord(alg: Algorithm, s: Bits, word: Bits): (r: Bits)
    requires alg.Valid() && |s| == alg.Width() && |word| == 32
    ensures |r| == alg.Width()
  {
    var x := Xor(AtLow(s, 32), word);
    SliceWidths(alg, x[..8], x[8..16], x[16..24], x[24..]);
    Xor(Xor(Xor(alg.Slice(3, x[..8]), alg.Slice(2, x[8..16])), alg.Slice(1, x[16..24])), alg.Slice(0, x[24..]))
  }

  lemma SliceWidths(alg: Algorithm, a: Bits, b: Bits, c: Bits, d: Bits)
    requires alg.Valid() && |a| == |b| == |c| == |d| == 8
    ensures |alg.Slice(3, a)| == |alg.Slice(2, b)| == |alg.Slice(1, c)| == |alg.Slice(0, d)| == alg.Width()
  {
    SliceRecurrence(alg, 3, a);
    SliceRecurrence(alg, 2, b);
    SliceRecurrence(alg, 1, c);
    SliceRecurrence(alg, 0, d);
  }

  /** A lookup step is the input byte mixed in, one byte later. */
  lemma FastByteNext(alg: Algorithm, s: Bits, b: Bits)
    requires alg.Valid() && |s| == alg.Width() && |b| == 8
    ensures alg.FastByte(s, b) == alg.Next(Xor(s, AtLow(b, alg.Width())))
  {
    var x := Xor(s, AtLow(b, alg.Width()));
    assert x[..8] == Xor(s[..8], b);
    assert x[8..] == s[8..];
  }

  /** Mixing two bytes mixes their table entries. */
  lemma SliceLinear(alg: Algorithm, k: nat, x: Bits, y: Bits)
    requires alg.Valid() && |x| == |y| == 8
    ensures |alg.Slice(k, x)| == |alg.Slice(k, y)| == alg.Width()
    ensures alg.Slice(k, Xor(x, y)) == Xor(alg.Slice(k, x), alg.Slice(k, y))
  {
    var w := alg.Width();
    StepLinear(alg);
    assert AtLow(Xor(x, y), w) == Xor(AtLow(x, w), AtLow(y, w));
    IterateLinear(alg.Step(), AtLow(x, w), AtLow(y, w), k + 1);
  }

  lemma XorShuffle(a: Bits, b: Bits, c: Bits, d: Bits, e: Bits, f: Bits, g: Bits, h: Bits)
    requires |a| == |b| == |c| == |d| == |e| == |f| == |g| == |h|
    ensures Xor(Xor(Xor(Xor(a, e), Xor(b, f)), Xor(c, g)), Xor(d, h))
         == Xor(Xor(Xor(Xor(Xor(Xor(Xor(a, b), c), d), e), f), g), h)
  {
  }

  /** The four lookups, split into what the register and what the word contribute. */
  lemma WordLookups(alg: Algorithm, s: Bits, d0: Bits, d1: Bits, d2: Bits, d3: Bits)
    requires alg.Valid() && |s| == alg.Width()
    requires |d0| == |d1| == |d2| == |d3| == 8
    ensures
      var f, w := alg.Step(), alg.Width();
      var a3, a2, a1, a0 := Iterate(f, LowByte(s, 0), 4), Iterate(f, LowByte(s, 1), 3),
                            Iterate(f, LowByte(s, 2), 2), Iterate(f, LowByte(s, 3), 1);
      var b3, b2, b1, b0 := alg.Slice(3, d0), alg.Slice(2, d1), alg.Slice(1, d2), alg.Slice(0, d3);
      && |a3| == |a2| == |a1| == |a0| == |b3| == |b2| == |b1| == |b0| == w
      && FastWord(alg, s, d0 + d1 + d2 + d3) == Xor(Xor(Xor(Xor(Xor(Xor(Xor(a3, a2), a1), a0), b3), b2), b1), b0)
  {
    var p, word := AtLow(s, 32), d0 + d1 + d2 + d3;
    var x := Xor(p, word);
    BytesOfXor(p, d0, d1, d2, d3);
    LowBytes(s);
    SliceLinear(alg, 3, p[..8], d0);
    SliceLinear(alg, 2, p[8..16], d1);
    SliceLinear(alg, 1, p[16..24], d2);
    SliceLinear(alg, 0, p[24..], d3);
    XorShuffle(alg.Slice(3, p[..8]), alg.Slice(2, p[8..16]), alg.Slice(1, p[16..24]), alg.Slice(0, p[24..]),
               alg.Slice(3, d0), alg.Slice(2, d1), alg.Slice(1, d2), alg.Slice(0, d3));
  }

  lemma LowBytes(s: Bits)
    requires 8 <= |s| <= 32
    ensures var p, w := AtLow(s, 32), |s|;
            && LowByte(s, 0) == AtLow(p[..8], w) && LowByte(s, 1) == AtLow(p[8..16], w)
            && LowByte(s, 2) == AtLow(p[16..24], w) && LowByte(s, 3) == AtLow(p[24..], w)
  {
    var p := AtLow(s, 32);
    assert p[0..8] == p[..8] && p[24..32] == p[24..];
  }

  lemma BytesOfXor(p: Bits, d0: Bits, d1: Bits, d2: Bits, d3: Bits)
    requires |p| == 32 && |d0| == |d1| == |d2| == |d3| == 8
    ensures var x := Xor(p, d0 + d1 + d2 + d3);
            && x[..8] == Xor(p[..8], d0) && x[8..16] == Xor(p[8..16], d1)
            && x[16..24] == Xor(p[16..24], d2) && x[24..] == Xor(p[24..], d3)
  {
  }

  /** Four lookups in four tables are four lookups in one, byte after byte. */
  lemma FourLookups(alg: Algorithm, s: Bits, d0: Bits, d1: Bits, d2: Bits, d3: Bits)
    requires alg.Valid() && |s| == alg.Width()
    requires |d0| == |d1| == |d2| == |d3| == 8
    ensures FastWord(alg, s, d0 + d1 + d2 + d3)
         == alg.FastByte(alg.FastByte(alg.FastByte(alg.FastByte(s, d0), d1), d2), d3)
  {
    var f, w := alg.Step(), alg.Width();
    StepLinear(alg);
    FastByteStep(alg, s, d0);
    var s1 := alg.FastByte(s, d0);
    FastByteStep(alg, s1, d1);
    var s2 := alg.FastByte(s1, d1);
    FastByteStep(alg, s2, d2);
    var s3 := alg.FastByte(s2, d2);
    FastByteStep(alg, s3, d3);
    FourBytes(f, s, AtLow(d0, w), AtLow(d1, w), AtLow(d2, w), AtLow(d3, w));
    PeelFour(f, s);
    WordLookups(alg, s, d0, d1, d2, d3);
  }

  lemma FastByteStep(alg: Algorithm, s: Bits, b: Bits)
    requires alg.Valid() && |s| == alg.Width() && |b| == 8
    ensures alg.FastByte(s, b) == alg.Step()(Xor(s, AtLow(b, alg.Width())))
  {
    FastByteNext(alg, s, b);
    StepIsNext(alg, Xor(s, AtLow(b, alg.Width())));
  }

  // The table-driven steps against the bit-at-a-time definitions.

  /** One lookup is eight steps of a reflected CRC. */
  lemma FastByteReflected(alg: Algorithm, s: Bits, b: Bits)
    requires alg.Valid() && alg.reflected && |s| == alg.Width() && |b| == 8
    ensures alg.FastByte(s, b) == RightByte(alg.poly, s, b)
  {
    var x, h := Xor(s[..8], b), s[8..];
    var low, high := AtLow(x, |s|), Zeros(|x|) + h;
    assert Xor(s, AtLow(b, |s|)) == Xor(low, high);
    RightStepsLinear(alg.poly, low, high, |x|);
    assert high == Zeros(|x|) + h + Zeros(0);
    RightStepsMove(alg.poly, h, 0, |x|);
    XorSwap(alg.Table0(x), h + Zeros(8));
  }

  lemma XorSwap(a: Bits, b: Bits)
    requires |a| == |b|
    ensures Xor(a, b) == Xor(b, a)
  {
  }

  /** Eight steps to the left, split into the byte shifted out and the rest. */
  lemma LeftByteSplit(poly: Bits, h: Bits, top: Bits, b: Bits)
    requires |poly| == |h| + 8 && |top| == |b| == 8
    ensures LeftByte(poly, h + top, b)
         == Xor(LeftSteps(poly, AtHigh(Xor(top, b), |poly|), |b|), Zeros(8) + h)
  {
    var high, low := AtHigh(Xor(top, b), |poly|), h + Zeros(|b|);
    assert Xor(h + top, AtHigh(b, |poly|)) == Xor(high, low);
    LeftStepsLinear(poly, high, low, |b|);
    assert low == Zeros(0) + h + Zeros(|b|);
    LeftStepsMove(poly, h, 0, |b|);
  }

  lemma RevOfMix(s: Bits, out: Bits)
    requires Whole(s) && |out| == |s|
    ensures Rev(Xor(s[8..] + Zeros(8), Rev(out))) == Xor(out, Zeros(8) + Rev(s)[..|s| - 8])
  {
    RevLinear(s[8..] + Zeros(8), Rev(out));
    RevMoved(s);
    RevTwice(out);
    XorSwap(out, Zeros(8) + Rev(s)[..|s| - 8]);
  }

  /** One lookup is eight steps of the others, on the byte-swapped register. */
  lemma FastByteStraight(alg: Algorithm, s: Bits, b: Bits)
    requires alg.Valid() && !alg.reflected && |s| == alg.Width() && |b| == 8
    ensures Rev(alg.FastByte(s, b)) == LeftByte(alg.poly, Rev(s), b)
  {
    var x := Xor(s[..8], b);
    RevMoved(s);
    LeftByteSplit(alg.poly, Rev(s)[..|s| - 8], s[..8], b);
    RevOfMix(s, LeftSteps(alg.poly, AtHigh(x, |s|), |x|));
  }
}
