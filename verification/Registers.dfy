// Registers and machine words as their bits, bit 0 first, so that a word loaded from memory in
// little-endian order is its bytes one after the other.
module Registers {
  import opened Bytes

  type Bits = seq<bool>

  function ToBits(v: nat, n: nat): (r: Bits)
    ensures |r| == n
  {
    if n == 0 then [] else [v % 2 == 1] + ToBits(v / 2, n - 1)
  }

  function Bits8(b: byte): (r: Bits)
    ensures |r| == 8
  {
    ToBits(b, 8)
  }

  function Zeros(n: nat): (r: Bits)
    ensures |r| == n && forall i :: 0 <= i < n ==> !r[i]
  {
    seq(n, _ => false)
  }

  function Xor(a: Bits, b: Bits): (r: Bits)
    requires |a| == |b|
    ensures |r| == |a| && forall i :: 0 <= i < |r| ==> r[i] == (a[i] != b[i])
  {
    seq(|a|, i requires 0 <= i < |a| => a[i] != b[i])
  }

  function Not(a: Bits): (r: Bits)
    ensures |r| == |a|
  {
    seq(|a|, i requires 0 <= i < |a| => !a[i])
  }

  /** AND and XOR of numbers are those of their bits. */
  lemma {:induction false} Bitwise(a: nat, b: nat, n: nat)
    ensures forall i :: 0 <= i < n ==> ToBits(AndBits(a, b, n), n)[i] == (ToBits(a, n)[i] && ToBits(b, n)[i])
    ensures forall i :: 0 <= i < n ==> ToBits(XorBits(a, b, n), n)[i] == (ToBits(a, n)[i] != ToBits(b, n)[i])
  {
    if n > 0 {
      Bitwise(a / 2, b / 2, n - 1);
      assert AndBits(a, b, n) / 2 == AndBits(a / 2, b / 2, n - 1);
      assert XorBits(a, b, n) / 2 == XorBits(a / 2, b / 2, n - 1);
    }
  }

  lemma BitwiseBytes(a: byte, b: byte)
    ensures forall i :: 0 <= i < 8 ==> Bits8(And8(a, b))[i] == (Bits8(a)[i] && Bits8(b)[i])
    ensures forall i :: 0 <= i < 8 ==> Bits8(Xor8(a, b))[i] == (Bits8(a)[i] != Bits8(b)[i])
  {
    hide ToBits;
    Bitwise(a, b, 8);
  }

  function FromBits(b: Bits): (v: nat)
    ensures v <= Ones(|b|)
  {
    if b == [] then 0 else (if b[0] then 1 else 0) + 2 * FromBits(b[1..])
  }

  lemma {:induction false} ToFrom(b: Bits)
    ensures ToBits(FromBits(b), |b|) == b
  {
    if b != [] {
      ToFrom(b[1..]);
    }
  }

  function ByteOf(b: Bits): (v: byte)
    requires |b| == 8
    ensures Bits8(v) == b
  {
    OnesOfByte();
    ToFrom(b);
    FromBits(b)
  }

  lemma {:induction false} BitsBack(v: nat, n: nat)
    requires v <= Ones(n)
    ensures FromBits(ToBits(v, n)) == v
  {
    if n > 0 {
      BitsBack(v / 2, n - 1);
    }
  }

  lemma ByteBack(b: byte)
    ensures ByteOf(Bits8(b)) == b
  {
    OnesOfByte();
    BitsBack(b, 8);
    BitsBack(ByteOf(Bits8(b)), 8);
  }

  // Machine words.

  function Odd(v: bv32): bool
  {
    v & 1 != 0
  }

  function Half(v: bv32): bv32
  {
    v >> 1
  }

  /** The low `w` bits of a word. */
  function Of(v: bv32, w: nat): (r: Bits)
    ensures |r| == w
  {
    if w == 0 then [] else [Odd(v)] + Of(Half(v), w - 1)
  }

  /** A word as it is loaded from memory, low byte first. */
  function Load(data: seq<byte>, i: nat): (r: Bits)
    requires i + 4 <= |data|
    ensures |r| == 32
  {
    Bits8(data[i]) + Bits8(data[i + 1]) + Bits8(data[i + 2]) + Bits8(data[i + 3])
  }
}
