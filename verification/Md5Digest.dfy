// The message digest of RFC 1321, as its sections 3.1 to 3.5 define it.
module Md5Digest {
  import opened Bytes
  import opened Registers

  type Word = b: Bits | |b| == 32 witness Zeros(32)

  datatype State = State(a: Word, b: Word, c: Word, d: Word)

  function And(x: Word, y: Word): (r: Word)
  {
    seq(32, i requires 0 <= i < 32 => x[i] && y[i])
  }

  function Or(x: Word, y: Word): (r: Word)
  {
    seq(32, i requires 0 <= i < 32 => x[i] || y[i])
  }

  function Word32Of(v: nat): (r: Word)
  {
    ToBits(v % 0x1_0000_0000, 32)
  }

  /** Addition modulo 2^32. */
  function Add(x: Word, y: Word): (r: Word)
  {
    Word32Of(FromBits(x) + FromBits(y))
  }

  /** Circular shift to the left; bit 0 comes first in a word. */
  function RotateLeft(x: Word, s: nat): (r: Word)
    requires s <= 32
  {
    x[32 - s..] + x[..32 - s]
  }

  // The four auxiliary functions, section 3.4.

  function F(x: Word, y: Word, z: Word): Word
  {
    Or(And(x, y), And(Not(x), z))
  }

  function G(x: Word, y: Word, z: Word): Word
  {
    Or(And(x, z), And(y, Not(z)))
  }

  function H(x: Word, y: Word, z: Word): Word
  {
    Xor(Xor(x, y), z)
  }

  function I(x: Word, y: Word, z: Word): Word
  {
    Xor(y, Or(x, Not(z)))
  }

  /** The function of step `i`, one of 64. */
  function Mix(i: nat, x: Word, y: Word, z: Word): Word
  {
    if i < 16 then F(x, y, z) else if i < 32 then G(x, y, z) else if i < 48 then H(x, y, z) else I(x, y, z)
  }

  /** Which word of the block step `i` takes. */
  function Pick(i: nat): (k: nat)
    ensures k < 16
  {
    if i < 16 then i
    else if i < 32 then (1 + 5 * i) % 16
    else if i < 48 then (5 + 3 * i) % 16
    else 7 * i % 16
  }

  function Turn(i: nat): (s: nat)
    ensures 0 < s < 32
  {
    var column := i % 4;
    if i < 16 then [7, 12, 17, 22][column]
    else if i < 32 then [5, 9, 14, 20][column]
    else if i < 48 then [4, 11, 16, 23][column]
    else [6, 10, 15, 21][column]
  }

  /** The table of section 3.4: the integer part of 2^32 times |sin(i + 1)|. */
  function Sine(i: nat): bv32
    requires i < 64
  {
    match i
    case 0 => 0xd76aa478
    case 1 => 0xe8c7b756
    case 2 => 0x242070db
    case 3 => 0xc1bdceee
    case 4 => 0xf57c0faf
    case 5 => 0x4787c62a
    case 6 => 0xa8304613
    case 7 => 0xfd469501
    case 8 => 0x698098d8
    case 9 => 0x8b44f7af
    case 10 => 0xffff5bb1
    case 11 => 0x895cd7be
    case 12 => 0x6b901122
    case 13 => 0xfd987193
    case 14 => 0xa679438e
    case 15 => 0x49b40821
    case 16 => 0xf61e2562
    case 17 => 0xc040b340
    case 18 => 0x265e5a51
    case 19 => 0xe9b6c7aa
    case 20 => 0xd62f105d
    case 21 => 0x02441453
    case 22 => 0xd8a1e681
    case 23 => 0xe7d3fbc8
    case 24 => 0x21e1cde6
    case 25 => 0xc33707d6
    case 26 => 0xf4d50d87
    case 27 => 0x455a14ed
    case 28 => 0xa9e3e905
    case 29 => 0xfcefa3f8
    case 30 => 0x676f02d9
    case 31 => 0x8d2a4c8a
    case 32 => 0xfffa3942
    case 33 => 0x8771f681
    case 34 => 0x6d9d6122
    case 35 => 0xfde5380c
    case 36 => 0xa4beea44
    case 37 => 0x4bdecfa9
    case 38 => 0xf6bb4b60
    case 39 => 0xbebfbc70
    case 40 => 0x289b7ec6
    case 41 => 0xeaa127fa
    case 42 => 0xd4ef3085
    case 43 => 0x04881d05
    case 44 => 0xd9d4d039
    case 45 => 0xe6db99e5
    case 46 => 0x1fa27cf8
    case 47 => 0xc4ac5665
    case 48 => 0xf4292244
    case 49 => 0x432aff97
    case 50 => 0xab9423a7
    case 51 => 0xfc93a039
    case 52 => 0x655b59c3
    case 53 => 0x8f0ccc92
    case 54 => 0xffeff47d
    case 55 => 0x85845dd1
    case 56 => 0x6fa87e4f
    case 57 => 0xfe2ce6e0
    case 58 => 0xa3014314
    case 59 => 0x4e0811a1
    case 60 => 0xf7537e82
    case 61 => 0xbd3af235
    case 62 => 0x2ad7d2bb
    case _ => 0xeb86d391
  }

  /** `a = b + ((a + f(b,c,d) + X[k] + T[i]) <<< s)`, after which the four words change places. */
  function Operation(s: State, i: nat, x: Word): State
    requires i < 64
  {
    var sum := Add(Add(s.a, Add(Mix(i, s.b, s.c, s.d), x)), Of(Sine(i), 32));
    State(s.d, Add(s.b, RotateLeft(sum, Turn(i))), s.b, s.c)
  }

  function Rounds(s: State, block: seq<byte>, n: nat): State
    requires |block| == 64 && n <= 64
  {
    if n == 0 then s
    else Operation(Rounds(s, block, n - 1), n - 1, Load(block, 4 * Pick(n - 1)))
  }

  function Compress(s: State, block: seq<byte>): State
    requires |block| == 64
  {
    var t := Rounds(s, block, 64);
    State(Add(t.a, s.a), Add(t.b, s.b), Add(t.c, s.c), Add(t.d, s.d))
  }

  /** Whole blocks only; what does not fill a block is not looked at. */
  function Blocks(s: State, data: seq<byte>): State
    decreases |data|
  {
    if |data| < 64 then s else Blocks(Compress(s, data[..64]), data[64..])
  }

  const START := State(Of(0x67452301, 32), Of(0xefcdab89, 32), Of(0x98badcfe, 32), Of(0x10325476, 32))

  function Zeroed(n: nat): (z: seq<byte>)
    ensures |z| == n && forall i :: 0 <= i < n ==> z[i] == 0
  {
    seq(n, _ => 0)
  }

  /** Low-order byte first, low-order word first, and only the low-order 64 bits. */
  function BitLength(message: seq<byte>): (b: seq<byte>)
    ensures |b| == 8
  {
    var bits := 8 * |message| % 0x1_0000_0000_0000_0000;
    Le32(bits % 0x1_0000_0000) + Le32(bits / 0x1_0000_0000)
  }

  /** A one bit, then zeros until 8 bytes are missing from a whole number of blocks, then the length. */
  function Padded(message: seq<byte>): (p: seq<byte>)
  {
    message + [0x80] + Zeroed((55 - |message|) % 64) + BitLength(message)
  }

  lemma PaddedFillsBlocks(message: seq<byte>)
    ensures |Padded(message)| % 64 == 0
    ensures |message| + 9 <= |Padded(message)| < |message| + 9 + 64
  {
    hide BitLength;
    var short := 55 - |message|;
    assert |Padded(message)| == 64 * (1 - short / 64);
  }

  function BytesOf(w: Word): (b: seq<byte>)
    ensures |b| == 4
  {
    [ByteOf(w[..8]), ByteOf(w[8..16]), ByteOf(w[16..24]), ByteOf(w[24..])]
  }

  function Output(s: State): (b: seq<byte>)
    ensures |b| == 16
  {
    BytesOf(s.a) + BytesOf(s.b) + BytesOf(s.c) + BytesOf(s.d)
  }

  function Digest(message: seq<byte>): (b: seq<byte>)
    ensures |b| == 16
  {
    Output(Blocks(START, Padded(message)))
  }

  /** Whole blocks can be taken in as they come. */
  lemma {:induction false} BlocksAppend(s: State, a: seq<byte>, b: seq<byte>)
    requires |a| % 64 == 0
    ensures Blocks(s, a + b) == Blocks(Blocks(s, a), b)
    decreases |a|
  {
    hide Compress;
    if a == [] {
      assert a + b == b;
    } else {
      assert (a + b)[..64] == a[..64] && (a + b)[64..] == a[64..] + b;
      BlocksAppend(Compress(s, a[..64]), a[64..], b);
    }
  }

  lemma NextBlock(s: State, data: seq<byte>)
    requires |data| >= 64
    ensures Blocks(s, data) == Blocks(Compress(s, data[..64]), data[64..])
  {
    hide Compress;
  }

  lemma NoBlock(s: State)
    ensures Blocks(s, []) == s
  {
  }
}
