// What a CRC that shifts left is for: two messages of one length that differ only inside a
// window no wider than the register never have the same CRC.
module Bursts {
  import opened Bytes
  import opened Registers
  import opened Crc
  import opened FastCrc

  /** One bit of the message. */
  function FeedBit(poly: Bits, c: Bits, bit: bool): (r: Bits)
    requires |poly| == |c| > 0
    ensures |r| == |c|
  {
    ShiftLeft(poly, Xor(c, AtHigh([bit], |c|)))
  }

  function Feed(poly: Bits, c: Bits, bits: Bits): (r: Bits)
    requires |poly| == |c| > 0
    ensures |r| == |c|
    decreases |bits|
  {
    if bits == [] then c else Feed(poly, FeedBit(poly, c, bits[0]), bits[1..])
  }

  /** A byte, most significant bit first. */
  function Sent(b: Bits): (r: Bits)
    ensures |r| == |b|
  {
    if b == [] then [] else [b[|b| - 1]] + Sent(b[..|b| - 1])
  }

  /** A message as the string of bits that goes over a line. */
  function Line(data: seq<byte>): (r: Bits)
    ensures |r| == 8 * |data|
  {
    if data == [] then [] else Line(data[..|data| - 1]) + Sent(Bits8(data[|data| - 1]))
  }

  lemma {:induction false} FeedAppend(poly: Bits, c: Bits, a: Bits, b: Bits)
    requires |poly| == |c| > 0
    ensures Feed(poly, c, a + b) == Feed(poly, Feed(poly, c, a), b)
    decreases |a|
  {
    if a == [] {
      assert a + b == b;
    } else {
      assert (a + b)[1..] == a[1..] + b;
      FeedAppend(poly, FeedBit(poly, c, a[0]), a[1..], b);
    }
  }

  /** The top bit of a byte goes first; the rest of it moves up. */
  lemma TopBit(poly: Bits, c: Bits, b: Bits)
    requires |poly| == |c| >= |b| > 0
    ensures var n := |b| - 1;
            ShiftLeft(poly, Xor(c, AtHigh(b, |c|))) == Xor(FeedBit(poly, c, b[n]), AtHigh(b[..n], |c|))
  {
  }

  lemma FirstSent(b: Bits)
    requires b != []
    ensures Sent(b) != [] && Sent(b)[0] == b[|b| - 1] && Sent(b)[1..] == Sent(b[..|b| - 1])
  {
  }

  /** Mixing in a whole byte and then shifting is feeding its bits one by one. */
  lemma {:induction false} StepsAreFeeding(poly: Bits, c: Bits, b: Bits)
    requires |poly| == |c| >= |b| && |c| > 0
    ensures LeftSteps(poly, Xor(c, AtHigh(b, |c|)), |b|) == Feed(poly, c, Sent(b))
    decreases |b|
  {
    if b == [] {
      assert Xor(c, AtHigh(b, |c|)) == c;
    } else {
      hide Sent, Xor, AtHigh, FeedBit, ShiftLeft;
      var n := |b| - 1;
      TopBit(poly, c, b);
      FirstSent(b);
      StepsAreFeeding(poly, FeedBit(poly, c, b[n]), b[..n]);
    }
  }

  lemma {:induction false} StraightIsFeeding(poly: Bits, c: Bits, data: seq<byte>)
    requires |poly| == |c| >= 8
    ensures Straight(poly, c, data) == Feed(poly, c, Line(data))
    decreases |data|
  {
    if data != [] {
      var n := |data| - 1;
      StraightIsFeeding(poly, c, data[..n]);
      StepsAreFeeding(poly, Straight(poly, c, data[..n]), Bits8(data[n]));
      FeedAppend(poly, c, Line(data[..n]), Sent(Bits8(data[n])));
    }
  }

  /** One bit back: bit 0 of the polynomial shows whether it was mixed in. */
  lemma OneBack(poly: Bits, c: Bits, d: Bits, x: bool, y: bool, k: nat)
    requires |poly| == |c| == |d| && 0 < k <= |c| && poly[0]
    requires forall i :: 0 <= i < k ==> FeedBit(poly, c, x)[i] == FeedBit(poly, d, y)[i]
    ensures forall i :: 0 <= i < k - 1 ==> c[i] == d[i]
    ensures (c[|c| - 1] != x) == (d[|d| - 1] != y)
  {
    var cx, dy := Xor(c, AtHigh([x], |c|)), Xor(d, AtHigh([y], |d|));
    assert FeedBit(poly, c, x)[0] == cx[|c| - 1] && FeedBit(poly, d, y)[0] == dy[|d| - 1];
    forall i | 0 <= i < k - 1
      ensures c[i] == d[i]
    {
      assert FeedBit(poly, c, x)[i + 1] == FeedBit(poly, d, y)[i + 1];
      assert cx[i] == dy[i];
    }
  }

  /** Two strings of at most the register's width that lead to one register: the registers they
      started from agree in the low bits, and if those are equal, so are the strings. */
  lemma {:induction false} Backwards(poly: Bits, c: Bits, d: Bits, u: Bits, v: Bits)
    requires |poly| == |c| == |d| && |u| == |v| <= |c| && |c| > 0 && poly[0]
    requires Feed(poly, c, u) == Feed(poly, d, v)
    ensures forall i :: 0 <= i < |c| - |u| ==> c[i] == d[i]
    ensures c == d ==> u == v
    decreases |u|
  {
    if u != [] {
      var c1, d1 := FeedBit(poly, c, u[0]), FeedBit(poly, d, v[0]);
      Backwards(poly, c1, d1, u[1..], v[1..]);
      OneBack(poly, c, d, u[0], v[0], |c| - |u| + 1);
      if c == d {
        assert u == [u[0]] + u[1..] && v == [v[0]] + v[1..];
      }
    }
  }

  /** The same string of any length leads different registers to different registers. */
  lemma {:induction false} Injective(poly: Bits, c: Bits, d: Bits, u: Bits)
    requires |poly| == |c| == |d| > 0 && poly[0]
    requires Feed(poly, c, u) == Feed(poly, d, u)
    ensures c == d
    decreases |u|
  {
    if u != [] {
      Injective(poly, FeedBit(poly, c, u[0]), FeedBit(poly, d, u[0]), u[1..]);
      OneBack(poly, c, d, u[0], u[0], |c|);
    }
  }

  /** A burst of errors no wider than the register changes the register. */
  lemma BurstChanges(poly: Bits, c: Bits, before: Bits, u: Bits, v: Bits, after: Bits)
    requires |poly| == |c| > 0 && poly[0]
    requires |u| == |v| <= |c| && u != v
    ensures Feed(poly, c, before + u + after) != Feed(poly, c, before + v + after)
  {
    var s := Feed(poly, c, before);
    FeedAppend(poly, c, before + u, after);
    FeedAppend(poly, c, before + v, after);
    FeedAppend(poly, c, before, u);
    FeedAppend(poly, c, before, v);
    if Feed(poly, c, before + u + after) == Feed(poly, c, before + v + after) {
      Injective(poly, Feed(poly, s, u), Feed(poly, s, v), after);
      Backwards(poly, s, s, u, v);
    }
  }

  lemma {:induction false} ToBitsInjective(a: nat, b: nat, n: nat, bound: nat)
    requires a < bound && b < bound && bound <= Ones(n) + 1
    requires ToBits(a, n) == ToBits(b, n)
    ensures a == b
    decreases n
  {
    if n > 0 {
      assert ToBits(a, n)[0] == ToBits(b, n)[0];
      assert ToBits(a / 2, n - 1) == ToBits(a, n)[1..] == ToBits(b, n)[1..] == ToBits(b / 2, n - 1);
      ToBitsInjective(a / 2, b / 2, n - 1, Ones(n - 1) + 1);
    }
  }

  lemma {:induction false} SentInjective(a: Bits, b: Bits)
    requires Sent(a) == Sent(b)
    ensures a == b
    decreases |a|
  {
    if a != [] {
      assert |b| == |Sent(b)| == |Sent(a)| == |a|;
      var n := |a| - 1;
      assert Sent(a)[0] == Sent(b)[0];
      assert Sent(a[..n]) == Sent(a)[1..] == Sent(b)[1..] == Sent(b[..n]);
      SentInjective(a[..n], b[..n]);
      assert a == a[..n] + [a[n]] && b == b[..n] + [b[n]];
    }
  }

  /** Different messages are different strings of bits. */
  lemma {:induction false} LineInjective(x: seq<byte>, y: seq<byte>)
    requires Line(x) == Line(y)
    ensures x == y
    decreases |x|
  {
    assert |x| == |y|;
    if x != [] {
      var n := |x| - 1;
      var p, q := Line(x[..n]), Line(y[..n]);
      var s, t := Sent(Bits8(x[n])), Sent(Bits8(y[n]));
      assert Line(x) == p + s && Line(y) == q + t;
      assert p == (p + s)[..8 * n] == (q + t)[..8 * n] == q;
      assert s == (p + s)[8 * n..] == (q + t)[8 * n..] == t;
      LineInjective(x[..n], y[..n]);
      SentInjective(Bits8(x[n]), Bits8(y[n]));
      OnesOfByte();
      ToBitsInjective(x[n], y[n], 8, 256);
      assert x == x[..n] + [x[n]] && y == y[..n] + [y[n]];
    }
  }

  /** Two bit strings that agree outside `[from, from + width)`. */
  ghost predicate AgreeOutside(a: Bits, b: Bits, from: nat, width: nat)
  {
    |a| == |b| && forall i :: 0 <= i < |a| && !(from <= i < from + width) ==> a[i] == b[i]
  }

  lemma ThreeParts(a: Bits, lo: nat, hi: nat)
    requires lo <= hi <= |a|
    ensures a == a[..lo] + a[lo..hi] + a[hi..]
  {
  }

  lemma FeedDiffers(poly: Bits, c: Bits, a: Bits, b: Bits, from: nat, width: nat)
    requires |poly| == |c| > 0 && poly[0] && width <= |c|
    requires AgreeOutside(a, b, from, width) && a != b
    ensures Feed(poly, c, a) != Feed(poly, c, b)
  {
    hide Feed;
    var lo := if from < |a| then from else |a|;
    var hi := if from + width < |a| then from + width else |a|;
    ThreeParts(a, lo, hi);
    ThreeParts(b, lo, hi);
    assert b[..lo] == a[..lo] && b[hi..] == a[hi..];
    BurstChanges(poly, c, a[..lo], a[lo..hi], b[lo..hi], a[hi..]);
  }

  lemma CcittIsFeeding(data: seq<byte>)
    ensures CCITT.Valid() && CCITT.Crc(data) == Feed(CCITT.alg.poly, CCITT.init, Line(data))
  {
    CatalogueValid();
    StraightIsFeeding(CCITT.alg.poly, CCITT.init, data);
  }

  lemma CcittShape()
    ensures |CCITT.alg.poly| == |CCITT.init| == 16 && CCITT.alg.poly[0]
  {
    LowBitSet(0x1021, 16);
  }

  /** Any burst of at most 16 bits in a record, on byte boundaries or not, is caught by its CRC. */
  lemma BurstsDetected(x: seq<byte>, y: seq<byte>, from: nat)
    requires |x| == |y| && x != y
    requires AgreeOutside(Line(x), Line(y), from, 16)
    ensures CCITT.Valid() && CCITT.Crc(x) != CCITT.Crc(y)
  {
    hide *;
    CcittShape();
    CcittIsFeeding(x);
    CcittIsFeeding(y);
    if Line(x) == Line(y) {
      LineInjective(x, y);
    }
    FeedDiffers(CCITT.alg.poly, CCITT.init, Line(x), Line(y), from, 16);
  }

  lemma LowBitSet(v: nat, n: nat)
    requires v % 2 == 1 && n > 0
    ensures ToBits(v, n)[0]
  {
  }

  lemma MiddleDiffers(before: seq<byte>, u: seq<byte>, v: seq<byte>, after: seq<byte>)
    requires |u| == |v| && u != v
    ensures before + u + after != before + v + after
  {
    var k :| 0 <= k < |u| && u[k] != v[k];
    assert (before + u + after)[|before| + k] == u[k];
    assert (before + v + after)[|before| + k] == v[k];
  }

  lemma LineOfThree(a: seq<byte>, b: seq<byte>, c: seq<byte>)
    ensures Line(a + b + c) == Line(a) + Line(b) + Line(c)
  {
    LineAppend(a + b, c);
    LineAppend(a, b);
  }

  lemma AgreeAround(a: Bits, b: Bits, c: Bits, d: Bits)
    requires |b| == |c|
    ensures AgreeOutside(a + b + d, a + c + d, |a|, |b|)
  {
  }

  /** In particular, any damage to two neighbouring bytes. */
  lemma NeighboursDetected(before: seq<byte>, u: seq<byte>, v: seq<byte>, after: seq<byte>)
    requires |u| == |v| == 2 && u != v
    ensures CCITT.Valid() && CCITT.Crc(before + u + after) != CCITT.Crc(before + v + after)
  {
    hide *;
    MiddleDiffers(before, u, v, after);
    LineOfThree(before, u, after);
    LineOfThree(before, v, after);
    AgreeAround(Line(before), Line(u), Line(v), Line(after));
    BurstsDetected(before + u + after, before + v + after, |Line(before)|);
  }

  lemma {:induction false} LineAppend(a: seq<byte>, b: seq<byte>)
    ensures Line(a + b) == Line(a) + Line(b)
    decreases |b|
  {
    if b == [] {
      assert a + b == a;
    } else {
      var n := |b| - 1;
      assert (a + b)[..|a + b| - 1] == a + b[..n];
      LineAppend(a, b[..n]);
    }
  }
}
