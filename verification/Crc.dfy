// Cyclic redundancy checks, one bit at a time, on registers of any whole number of bytes.
module Crc {
  import opened Bytes
  import opened Registers

  /** The two widths a register can have here. */
  predicate Whole(c: Bits)
  {
    |c| == 16 || |c| == 32
  }

  /** The bytes of a register in the opposite order (`__REV16`, `__REV`). */
  function Rev(c: Bits): (r: Bits)
    requires Whole(c)
    ensures |r| == |c|
  {
    if |c| == 16 then c[8..] + c[..8] else c[24..] + c[16..24] + c[8..16] + c[..8]
  }

  // One bit. A reflected CRC shifts right, the others shift left, and either way the bit
  // shifted out decides whether the polynomial is mixed in.

  function ShiftRight(poly: Bits, c: Bits): (r: Bits)
    requires |poly| == |c| > 0
    ensures |r| == |c|
  {
    seq(|c|, i requires 0 <= i < |c| => (i + 1 < |c| && c[i + 1]) != (c[0] && poly[i]))
  }

  function ShiftLeft(poly: Bits, c: Bits): (r: Bits)
    requires |poly| == |c| > 0
    ensures |r| == |c|
  {
    seq(|c|, i requires 0 <= i < |c| => (i > 0 && c[i - 1]) != (c[|c| - 1] && poly[i]))
  }

  function RightSteps(poly: Bits, c: Bits, n: nat): (r: Bits)
    requires |poly| == |c| > 0
    ensures |r| == |c|
    decreases n, |c|
  {
    if n == 0 then c else RightSteps(poly, ShiftRight(poly, c), n - 1)
  }

  function LeftSteps(poly: Bits, c: Bits, n: nat): (r: Bits)
    requires |poly| == |c| > 0
    ensures |r| == |c|
    decreases n, |c|
  {
    if n == 0 then c else LeftSteps(poly, ShiftLeft(poly, c), n - 1)
  }

  // One byte. It enters at the low end of a reflected register and at the high end of the others.

  function AtLow(b: Bits, w: nat): (r: Bits)
    requires |b| <= w
    ensures |r| == w
  {
    b + Zeros(w - |b|)
  }

  function AtHigh(b: Bits, w: nat): (r: Bits)
    requires |b| <= w
    ensures |r| == w
  {
    Zeros(w - |b|) + b
  }

  function RightByte(poly: Bits, c: Bits, b: Bits): (r: Bits)
    requires |poly| == |c| >= 8 && |b| == 8
    ensures |r| == |c|
  {
    RightSteps(poly, Xor(c, AtLow(b, |c|)), |b|)
  }

  function LeftByte(poly: Bits, c: Bits, b: Bits): (r: Bits)
    requires |poly| == |c| >= 8 && |b| == 8
    ensures |r| == |c|
  {
    LeftSteps(poly, Xor(c, AtHigh(b, |c|)), |b|)
  }

  // A string of bytes.

  function Reflected(poly: Bits, c: Bits, data: seq<byte>): (r: Bits)
    requires |poly| == |c| >= 8
    ensures |r| == |c|
    decreases |data|
  {
    if data == [] then c
    else RightByte(poly, Reflected(poly, c, data[..|data| - 1]), Bits8(data[|data| - 1]))
  }

  function Straight(poly: Bits, c: Bits, data: seq<byte>): (r: Bits)
    requires |poly| == |c| >= 8
    ensures |r| == |c|
    decreases |data|
  {
    if data == [] then c
    else LeftByte(poly, Straight(poly, c, data[..|data| - 1]), Bits8(data[|data| - 1]))
  }

  /** A CRC can be carried from one string on to the next. */
  lemma {:induction false} ReflectedAppend(poly: Bits, c: Bits, a: seq<byte>, b: seq<byte>)
    requires |poly| == |c| >= 8
    ensures Reflected(poly, c, a + b) == Reflected(poly, Reflected(poly, c, a), b)
    decreases |b|
  {
    if b == [] {
      assert a + b == a;
    } else {
      var n := |b| - 1;
      assert (a + b)[..|a + b| - 1] == a + b[..n];
      ReflectedAppend(poly, c, a, b[..n]);
    }
  }

  lemma {:induction false} StraightAppend(poly: Bits, c: Bits, a: seq<byte>, b: seq<byte>)
    requires |poly| == |c| >= 8
    ensures Straight(poly, c, a + b) == Straight(poly, Straight(poly, c, a), b)
    decreases |b|
  {
    if b == [] {
      assert a + b == a;
    } else {
      var n := |b| - 1;
      assert (a + b)[..|a + b| - 1] == a + b[..n];
      StraightAppend(poly, c, a, b[..n]);
    }
  }

  // Linearity over GF(2).

  lemma ShiftRightLinear(poly: Bits, x: Bits, y: Bits)
    requires |poly| == |x| == |y| > 0
    ensures ShiftRight(poly, Xor(x, y)) == Xor(ShiftRight(poly, x), ShiftRight(poly, y))
  {
  }

  lemma ShiftLeftLinear(poly: Bits, x: Bits, y: Bits)
    requires |poly| == |x| == |y| > 0
    ensures ShiftLeft(poly, Xor(x, y)) == Xor(ShiftLeft(poly, x), ShiftLeft(poly, y))
  {
  }

  lemma {:induction false} RightStepsLinear(poly: Bits, x: Bits, y: Bits, n: nat)
    requires |poly| == |x| == |y| > 0
    ensures RightSteps(poly, Xor(x, y), n) == Xor(RightSteps(poly, x, n), RightSteps(poly, y, n))
    decreases n
  {
    if n > 0 {
      ShiftRightLinear(poly, x, y);
      RightStepsLinear(poly, ShiftRight(poly, x), ShiftRight(poly, y), n - 1);
    }
  }

  lemma {:induction false} LeftStepsLinear(poly: Bits, x: Bits, y: Bits, n: nat)
    requires |poly| == |x| == |y| > 0
    ensures LeftSteps(poly, Xor(x, y), n) == Xor(LeftSteps(poly, x, n), LeftSteps(poly, y, n))
    decreases n
  {
    if n > 0 {
      ShiftLeftLinear(poly, x, y);
      LeftStepsLinear(poly, ShiftLeft(poly, x), ShiftLeft(poly, y), n - 1);
    }
  }

  /** Bits that never reach the end being shifted out just move. */
  lemma {:induction false} RightStepsMove(poly: Bits, h: Bits, z: nat, n: nat)
    requires |poly| == n + |h| + z > 0
    ensures RightSteps(poly, Zeros(n) + h + Zeros(z), n) == h + Zeros(z + n)
    decreases n
  {
    if n == 0 {
      assert Zeros(n) + h + Zeros(z) == h + Zeros(z + n);
    } else {
      ShiftRightMove(poly, h, z, n);
      RightStepsMove(poly, h, z + 1, n - 1);
    }
  }

  lemma ShiftRightMove(poly: Bits, h: Bits, z: nat, n: nat)
    requires |poly| == n + |h| + z && n > 0
    ensures ShiftRight(poly, Zeros(n) + h + Zeros(z)) == Zeros(n - 1) + h + Zeros(z + 1)
  {
  }

  lemma {:induction false} LeftStepsMove(poly: Bits, h: Bits, z: nat, n: nat)
    requires |poly| == n + |h| + z > 0
    ensures LeftSteps(poly, Zeros(z) + h + Zeros(n), n) == Zeros(z + n) + h
    decreases n
  {
    if n == 0 {
      assert Zeros(z) + h + Zeros(n) == Zeros(z + n) + h;
    } else {
      ShiftLeftMove(poly, h, z, n);
      LeftStepsMove(poly, h, z + 1, n - 1);
    }
  }

  lemma ShiftLeftMove(poly: Bits, h: Bits, z: nat, n: nat)
    requires |poly| == n + |h| + z && n > 0
    ensures ShiftLeft(poly, Zeros(z) + h + Zeros(n)) == Zeros(z + 1) + h + Zeros(n - 1)
  {
  }

  lemma RevLinear(x: Bits, y: Bits)
    requires Whole(x) && |x| == |y|
    ensures Rev(Xor(x, y)) == Xor(Rev(x), Rev(y))
  {
  }

  lemma RevTwice(c: Bits)
    requires Whole(c)
    ensures Rev(Rev(c)) == c
  {
    var r := Rev(c);
    if |c| == 16 {
      assert r[8..] == c[..8] && r[..8] == c[8..];
    } else {
      assert r[24..] == c[..8] && r[16..24] == c[8..16] && r[8..16] == c[16..24] && r[..8] == c[24..];
    }
  }

  /** Moving a register down by a byte moves its byte-swapped image up by one. */
  lemma RevMoved(s: Bits)
    requires Whole(s)
    ensures Rev(s) == Rev(s)[..|s| - 8] + s[..8]
    ensures Rev(s[8..] + Zeros(8)) == Zeros(8) + Rev(s)[..|s| - 8]
  {
    var t := s[8..] + Zeros(8);
    if |s| == 16 {
      assert t[8..] == Zeros(8) && t[..8] == s[8..];
      assert Rev(s)[..8] == s[8..];
    } else {
      assert t[24..] == Zeros(8) && t[16..24] == s[24..] && t[8..16] == s[16..24] && t[..8] == s[8..16];
      assert Rev(s)[..24] == s[24..] + s[16..24] + s[8..16];
    }
  }
}
