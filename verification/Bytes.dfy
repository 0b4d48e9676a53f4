// Bytes, bitwise operations on them, and little-endian words, all as integers, so that
// addresses and the bytes they are stored as need no conversion between number systems.
module Bytes {

  type byte = x: int | 0 <= x < 256

  const BLANK: byte := 255

  function Ones(n: nat): nat
  {
    if n == 0 then 0 else 1 + 2 * Ones(n - 1)
  }

  /** Bitwise AND of the low `n` bits. */
  function AndBits(a: nat, b: nat, n: nat): (r: nat)
    ensures r <= Ones(n)
  {
    if n == 0 then 0
    else (if a % 2 == 1 && b % 2 == 1 then 1 else 0) + 2 * AndBits(a / 2, b / 2, n - 1)
  }

  /** Bitwise XOR of the low `n` bits. */
  function XorBits(a: nat, b: nat, n: nat): (r: nat)
    ensures r <= Ones(n)
  {
    if n == 0 then 0
    else (if a % 2 != b % 2 then 1 else 0) + 2 * XorBits(a / 2, b / 2, n - 1)
  }

  lemma OnesOfByte()
    ensures Ones(8) == 255
  {
    assert Ones(4) == 15;
    assert Ones(6) == 63;
  }

  function And8(a: byte, b: byte): byte
  {
    OnesOfByte();
    AndBits(a, b, 8)
  }

  function Xor8(a: byte, b: byte): byte
  {
    OnesOfByte();
    XorBits(a, b, 8)
  }

  lemma {:induction false} AndOnes(b: nat, n: nat)
    requires b <= Ones(n)
    ensures AndBits(Ones(n), b, n) == b
  {
    if n > 0 {
      AndOnes(b / 2, n - 1);
    }
  }

  lemma {:induction false} AndComplement(b: nat, n: nat)
    requires b <= Ones(n)
    ensures AndBits(b, XorBits(b, Ones(n), n), n) == 0
  {
    if n > 0 {
      ComplementStep(b, n);
      AndComplement(b / 2, n - 1);
    }
  }

  lemma ComplementStep(b: nat, n: nat)
    requires n > 0
    ensures XorBits(b, Ones(n), n) / 2 == XorBits(b / 2, Ones(n - 1), n - 1)
    ensures XorBits(b, Ones(n), n) % 2 == 1 - b % 2
  {
    var rest := Ones(n - 1);
    assert (1 + 2 * rest) / 2 == rest && (1 + 2 * rest) % 2 == 1;
  }

  /** Programming a blank byte stores exactly the byte that was meant. */
  lemma AndBlank(b: byte)
    ensures And8(BLANK, b) == b
  {
    OnesOfByte();
    AndOnes(b, 8);
  }

  /** Programming a byte with its own complement clears it. */
  lemma AndInverted(b: byte)
    ensures And8(b, Xor8(b, 255)) == 0
  {
    OnesOfByte();
    AndComplement(b, 8);
  }

  lemma {:induction false} AndNothing(b: nat, n: nat)
    ensures AndBits(b, 0, n) == 0
  {
    if n > 0 {
      AndNothing(b / 2, n - 1);
    }
  }

  lemma AndZero(b: byte)
    ensures And8(b, 0) == 0
  {
    AndNothing(b, 8);
  }

  // Little-endian words.

  function Word16(s: seq<byte>, at: nat): (w: nat)
    requires at + 2 <= |s|
    ensures w < 0x1_0000
  {
    s[at] as int + 256 * s[at + 1] as int
  }

  function Word32(s: seq<byte>, at: nat): (w: nat)
    requires at + 4 <= |s|
    ensures w < 0x1_0000_0000
  {
    Word16(s, at) + 0x1_0000 * Word16(s, at + 2)
  }

  function Le16(w: nat): (s: seq<byte>)
    requires w < 0x1_0000
    ensures |s| == 2 && Word16(s, 0) == w
  {
    [w % 256, w / 256]
  }

  function Le32(w: nat): (s: seq<byte>)
    requires w < 0x1_0000_0000
    ensures |s| == 4 && Word32(s, 0) == w
  {
    Le16(w % 0x1_0000) + Le16(w / 0x1_0000)
  }

  function Blanks(n: nat): (s: seq<byte>)
    ensures |s| == n && forall i :: 0 <= i < n ==> s[i] == BLANK
  {
    seq(n, _ => BLANK)
  }
}
