// The CRC engines: one loop, which runs the table lookups over a string of bytes, and the
// bitwise definition each of them is to agree with, whatever the alignment of the data and
// however a message is cut into calls.
module FastCrc {
  import opened Bytes
  import opened Registers
  import opened Crc
  import opened Slicing

  /** The register after more bytes, one lookup a byte. */
  function Bytewise(alg: Algorithm, s: Bits, data: seq<byte>): (r: Bits)
    requires alg.Valid() && |s| == alg.Width()
    ensures |r| == alg.Width()
    decreases |data|
  {
    if data == [] then s
    else alg.FastByte(Bytewise(alg, s, data[..|data| - 1]), Bits8(data[|data| - 1]))
  }

  /** A lookup a byte is the bit-at-a-time CRC. */
  lemma {:induction false} BytewiseReflected(alg: Algorithm, s: Bits, data: seq<byte>)
    requires alg.Valid() && alg.reflected && |s| == alg.Width()
    ensures Bytewise(alg, s, data) == Reflected(alg.poly, s, data)
    decreases |data|
  {
    if data != [] {
      var n := |data| - 1;
      BytewiseReflected(alg, s, data[..n]);
      FastByteReflected(alg, Bytewise(alg, s, data[..n]), Bits8(data[n]));
    }
  }

  /** The same for a CRC that shifts left, on the byte-swapped register. */
  lemma {:induction false} BytewiseStraight(alg: Algorithm, s: Bits, data: seq<byte>)
    requires alg.Valid() && !alg.reflected && |s| == alg.Width()
    ensures Rev(Bytewise(alg, s, data)) == Straight(alg.poly, Rev(s), data)
    decreases |data|
  {
    if data != [] {
      var n := |data| - 1;
      BytewiseStraight(alg, s, data[..n]);
      FastByteStraight(alg, Bytewise(alg, s, data[..n]), Bits8(data[n]));
    }
  }

  lemma {:induction false} BytewiseAppend(alg: Algorithm, s: Bits, a: seq<byte>, b: seq<byte>)
    requires alg.Valid() && |s| == alg.Width()
    ensures Bytewise(alg, s, a + b) == Bytewise(alg, Bytewise(alg, s, a), b)
    decreases |b|
  {
    if b == [] {
      assert a + b == a;
    } else {
      var n := |b| - 1;
      assert (a + b)[..|a + b| - 1] == a + b[..n];
      BytewiseAppend(alg, s, a, b[..n]);
    }
  }

  /** The register after the first `n` bytes. */
  function Upto(alg: Algorithm, s: Bits, data: seq<byte>, n: nat): (r: Bits)
    requires alg.Valid() && |s| == alg.Width() && n <= |data|
    ensures |r| == alg.Width()
    decreases n, |data|
  {
    if n == 0 then s else alg.FastByte(Upto(alg, s, data, n - 1), Bits8(data[n - 1]))
  }

  lemma {:induction false} UptoPrefix(alg: Algorithm, s: Bits, data: seq<byte>, n: nat)
    requires alg.Valid() && |s| == alg.Width() && n <= |data|
    ensures Upto(alg, s, data, n) == Bytewise(alg, s, data[..n])
    decreases n
  {
    hide Algorithm.FastByte;
    if n > 0 {
      UptoPrefix(alg, s, data, n - 1);
      assert data[..n][..n - 1] == data[..n - 1];
    }
  }

  lemma UptoNext(alg: Algorithm, s: Bits, data: seq<byte>, n: nat)
    requires alg.Valid() && |s| == alg.Width() && n < |data|
    ensures Upto(alg, s, data, n + 1) == alg.FastByte(Upto(alg, s, data, n), Bits8(data[n]))
  {
  }

  lemma UptoEnds(alg: Algorithm, s: Bits, data: seq<byte>)
    requires alg.Valid() && |s| == alg.Width()
    ensures Upto(alg, s, data, 0) == s
    ensures Upto(alg, s, data, |data|) == Bytewise(alg, s, data)
  {
    UptoPrefix(alg, s, data, |data|);
    assert data[..|data|] == data;
  }

  lemma UptoWord(alg: Algorithm, s: Bits, data: seq<byte>, i: nat)
    requires alg.Valid() && |s| == alg.Width() && i + 4 <= |data|
    ensures Upto(alg, s, data, i + 4) == FastWord(alg, Upto(alg, s, data, i), Load(data, i))
  {
    var s1, s2 := Upto(alg, s, data, i + 1), Upto(alg, s, data, i + 2);
    FourLookups(alg, Upto(alg, s, data, i),
                Bits8(data[i]), Bits8(data[i + 1]), Bits8(data[i + 2]), Bits8(data[i + 3]));
    assert s1 == alg.FastByte(Upto(alg, s, data, i), Bits8(data[i]));
    assert Upto(alg, s, data, i + 3) == alg.FastByte(s2, Bits8(data[i + 2]));
  }

  // The algorithms on offer, by their parameters.

  datatype Model = Model(alg: Algorithm, init: Bits, invert: bool)
  {
    predicate Valid()
    {
      alg.Valid() && |init| == alg.Width() && Rev(init) == init
    }

    function Inverted(c: Bits): (r: Bits)
      ensures |r| == |c|
    {
      if invert then Not(c) else c
    }

    /** The CRC of a message, bit by bit. */
    function Crc(message: seq<byte>): (r: Bits)
      requires Valid()
      ensures |r| == alg.Width()
    {
      Inverted(if alg.reflected then Reflected(alg.poly, init, message) else Straight(alg.poly, init, message))
    }

    /** What the seed holds after a message. */
    function Seed(message: seq<byte>): (r: Bits)
      requires Valid()
      ensures |r| == alg.Width()
    {
      Bytewise(alg, init, message)
    }

    /** The result that goes with a seed. */
    function Result(seed: Bits): (r: Bits)
      requires alg.Valid() && |seed| == alg.Width()
      ensures |r| == alg.Width()
    {
      Inverted(if alg.reflected then seed else Rev(seed))
    }
  }

  lemma ResultOfSeed(m: Model, message: seq<byte>)
    requires m.Valid()
    ensures m.Result(m.Seed(message)) == m.Crc(message)
  {
    if m.alg.reflected {
      BytewiseReflected(m.alg, m.init, message);
    } else {
      BytewiseStraight(m.alg, m.init, message);
    }
  }

  function AllOnes(n: nat): (r: Bits)
    ensures |r| == n
  {
    Not(Zeros(n))
  }

  const CCITT := Model(Algorithm(ToBits(0x1021, 16), false), AllOnes(16), false)
  const XMODEM := Model(Algorithm(ToBits(0x1021, 16), false), Zeros(16), false)
  const MCRF4XX := Model(Algorithm(ToBits(0x8408, 16), true), AllOnes(16), false)
  const KERMIT := Model(Algorithm(ToBits(0x8408, 16), true), Zeros(16), false)
  const X25 := Model(Algorithm(ToBits(0x8408, 16), true), AllOnes(16), true)
  const MODBUS := Model(Algorithm(ToBits(0xA001, 16), true), AllOnes(16), false)
  const CRC32 := Model(Algorithm(ToBits(0xEDB8_8320, 32), true), AllOnes(32), true)
  const CKSUM := Model(Algorithm(ToBits(0x04C1_1DB7, 32), false), Zeros(32), true)

  lemma UniformIsPalindrome(n: nat)
    requires n == 16 || n == 32
    ensures Rev(Zeros(n)) == Zeros(n) && Rev(AllOnes(n)) == AllOnes(n)
  {
  }

  lemma CatalogueValid()
    ensures CCITT.Valid() && XMODEM.Valid() && MCRF4XX.Valid() && KERMIT.Valid()
    ensures X25.Valid() && MODBUS.Valid() && CRC32.Valid() && CKSUM.Valid()
  {
    UniformIsPalindrome(16);
    UniformIsPalindrome(32);
  }

  /** A message can be cut anywhere. */
  lemma Resumed(m: Model, a: seq<byte>, b: seq<byte>)
    requires m.Valid()
    ensures m.Seed(a + b) == Bytewise(m.alg, m.Seed(a), b)
    ensures m.Result(Bytewise(m.alg, m.Seed(a), b)) == m.Crc(a + b)
  {
    BytewiseAppend(m.alg, m.init, a, b);
    ResultOfSeed(m, a + b);
  }

  /** Whether a word can be loaded there. */
  predicate Aligned(a: nat)
  {
    a % 4 == 0
  }

  lemma StaysAligned(a: nat)
    ensures Aligned(a + 16) == Aligned(a)
  {
  }

  /** Bytes are taken one at a time up to a word boundary, then in groups of four words, then
      one at a time again. */
  method Run(alg: Algorithm, seed: Bits, data: seq<byte>, address: nat) returns (crc: Bits)
    requires alg.Valid() && |seed| == alg.Width()
    ensures |crc| == alg.Width()
    ensures crc == Bytewise(alg, seed, data)
  {
    hide *;
    crc := seed;
    var at, addr := 0, address;
    UptoEnds(alg, seed, data);
    while !Aligned(addr) && at < |data|
      invariant at <= |data| && crc == Upto(alg, seed, data, at)
      decreases |data| - at
    {
      UptoNext(alg, seed, data, at);
      crc := alg.FastByte(crc, Bits8(data[at]));
      at, addr := at + 1, addr + 1;
    }
    while |data| - at >= 16
      invariant at <= |data| && crc == Upto(alg, seed, data, at)
      invariant at < |data| ==> Aligned(addr)
      decreases |data| - at
    {
      crc := Words(alg, seed, data, at, crc);
      StaysAligned(addr);
      at, addr := at + 16, addr + 16;
    }
    while at < |data|
      invariant at <= |data| && crc == Upto(alg, seed, data, at)
    {
      UptoNext(alg, seed, data, at);
      crc := alg.FastByte(crc, Bits8(data[at]));
      at := at + 1;
    }
  }

  /** The unrolled body of the middle loop. */
  method Words(alg: Algorithm, ghost seed: Bits, data: seq<byte>, at: nat, before: Bits) returns (crc: Bits)
    requires alg.Valid() && |seed| == |before| == alg.Width() && at + 16 <= |data|
    requires before == Upto(alg, seed, data, at)
    ensures crc == Upto(alg, seed, data, at + 16)
  {
    crc := FastWord(alg, before, Load(data, at));
    UptoWord(alg, seed, data, at);
    crc := FastWord(alg, crc, Load(data, at + 4));
    UptoWord(alg, seed, data, at + 4);
    crc := FastWord(alg, crc, Load(data, at + 8));
    UptoWord(alg, seed, data, at + 8);
    crc := FastWord(alg, crc, Load(data, at + 12));
    UptoWord(alg, seed, data, at + 12);
  }

  /** `FastCRC16` or `FastCRC32`, by the width of the seed. */
  class FastCRC {
    var seed: Bits

    constructor (width: nat)
      requires width == 16 || width == 32
      ensures |seed| == width
    {
      seed := Zeros(width);
    }

    /** `ccitt_upd`, `kermit_upd`, ...: carry on from the seed. */
    method Update(m: Model, data: seq<byte>, address: nat) returns (crc: Bits)
      requires m.Valid() && |seed| == m.alg.Width()
      modifies this
      ensures |seed| == m.alg.Width()
      ensures seed == Bytewise(m.alg, old(seed), data) && crc == m.Result(seed)
      ensures forall before {:trigger m.Seed(before)} :: old(seed) == m.Seed(before) ==>
        seed == m.Seed(before + data) && crc == m.Crc(before + data)
    {
      ghost var was := seed;
      seed := Run(m.alg, seed, data, address);
      crc := m.Inverted(if m.alg.reflected then seed else Rev(seed));
      forall before {:trigger m.Seed(before)} | was == m.Seed(before)
        ensures seed == m.Seed(before + data) && crc == m.Crc(before + data)
      {
        Resumed(m, before, data);
      }
    }

    /** `ccitt`, `kermit`, ...: start a message. */
    method Start(m: Model, data: seq<byte>, address: nat) returns (crc: Bits)
      requires m.Valid() && |seed| == m.alg.Width()
      modifies this
      ensures seed == m.Seed(data) && crc == m.Crc(data)
    {
      seed := m.init;
      assert m.Seed([]) == m.init && [] + data == data;
      crc := Update(m, data, address);
    }
  }

  // The live link's own CRCs, a bit at a time.

  method ShiftIn(poly: Bits, crc: Bits, b: byte) returns (r: Bits)
    requires |poly| == |crc| >= 8
    ensures |r| == |crc| && r == LeftByte(poly, crc, Bits8(b))
  {
    var bits := Bits8(b);
    r := Xor(crc, AtHigh(bits, |crc|));
    ghost var first := r;
    for i := 0 to 8
      invariant |r| == |crc| && LeftSteps(poly, r, |bits| - i) == LeftSteps(poly, first, |bits|)
    {
      r := ShiftLeft(poly, r);
    }
  }

  /** It is the CRC that `FastCRC16::ccitt` computes. */
  method XclCrc16(data: seq<byte>) returns (crc: Bits)
    ensures CCITT.Valid() && crc == CCITT.Crc(data)
  {
    CatalogueValid();
    crc := AllOnes(16);
    for i := 0 to |data|
      invariant |crc| == 16 && crc == Straight(CCITT.alg.poly, AllOnes(16), data[..i])
    {
      assert data[..i + 1][..i] == data[..i];
      crc := ShiftIn(CCITT.alg.poly, crc, data[i]);
    }
    assert data[..|data|] == data;
  }

  const CRC8: Bits := ToBits(0x07, 8)

  method XclCrc8(data: seq<byte>) returns (crc: Bits)
    ensures |crc| == 8 && crc == Straight(CRC8, Zeros(8), data)
  {
    crc := Zeros(8);
    for i := 0 to |data|
      invariant |crc| == 8 && crc == Straight(CRC8, Zeros(8), data[..i])
    {
      assert data[..i + 1][..i] == data[..i];
      crc := ShiftIn(CRC8, crc, data[i]);
    }
    assert data[..|data|] == data;
  }

  /** A one-byte register that takes in its own value is clear again. */
  lemma OwnValueClears(poly: Bits, c: Bits, data: seq<byte>, v: byte)
    requires |poly| == |c| == 8 && Bits8(v) == Straight(poly, c, data)
    ensures Straight(poly, c, data + [v]) == Zeros(8)
  {
    hide LeftSteps, Xor, AtHigh, Zeros, Bits8;
    var s := Straight(poly, c, data);
    assert (data + [v])[..|data|] == data;
    assert Straight(poly, c, data + [v]) == LeftByte(poly, s, s);
    OwnValue(s);
    StepsOfZero(poly, |s|);
  }

  lemma OwnValue(s: Bits)
    ensures Xor(s, AtHigh(s, |s|)) == Zeros(|s|)
  {
  }

  lemma {:induction false} StepsOfZero(poly: Bits, n: nat)
    requires |poly| > 0
    ensures LeftSteps(poly, Zeros(|poly|), n) == Zeros(|poly|)
    decreases n
  {
    if n > 0 {
      assert ShiftLeft(poly, Zeros(|poly|)) == Zeros(|poly|);
      StepsOfZero(poly, n - 1);
    }
  }
}
