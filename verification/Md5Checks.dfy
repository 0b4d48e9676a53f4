// What the definition of the digest comes to, on words: the value that RFC 1321 gives for the
// letters of the alphabet (appendix A.5).
module Md5Checks {
  import opened Bytes
  import opened Registers
  import opened Words
  import opened Md5Digest

  // The operations, on words.

  lemma AndWords(a: bv32, b: bv32)
    ensures And(Of(a, 32), Of(b, 32)) == Of(Both(a, b), 32)
  {
    hide Both, Of;
    forall i | 0 <= i < 32
      ensures Of(Both(a, b), 32)[i] == (Of(a, 32)[i] && Of(b, 32)[i])
    {
      BothOf(a, b, 32, i);
    }
  }

  lemma OrWords(a: bv32, b: bv32)
    ensures Or(Of(a, 32), Of(b, 32)) == Of(Either(a, b), 32)
  {
    hide Either, Of;
    forall i | 0 <= i < 32
      ensures Of(Either(a, b), 32)[i] == (Of(a, 32)[i] || Of(b, 32)[i])
    {
      EitherOf(a, b, 32, i);
    }
  }

  lemma NotWord(a: bv32)
    ensures Not(Of(a, 32)) == Of(Flipped(a), 32)
  {
    hide Flipped, Differ, Of, OnesBelow;
    FlippedDiffers(a);
    XorOf(a, 0xFFFF_FFFF, 32);
    OnesIn32();
    OnesSet(0xFFFF_FFFF, 32);
  }

  lemma AddWords(a: bv32, b: bv32)
    ensures Add(Of(a, 32), Of(b, 32)) == Of(Plus(a, b), 32)
  {
    hide Of, ToBits, FromBits, PlusBy, Plus;
    PlusIs(a, b);
    assert Of(b, 0) == Zeros(0);
    SumOf(a, b, 32);
    ModWord(FromBits(Of(a, 32)) + FromBits(Of(b, 32)));
  }

  lemma ModWord(n: nat)
    ensures ToBits(n % 0x1_0000_0000, 32) == ToBits(n, 32)
  {
    hide ToBits, Ones;
    OnesOfWord();
    var r, k := n % 0x1_0000_0000, n / 0x1_0000_0000;
    LowBits(r, k, 32);
    assert n == r + k * 0x1_0000_0000;
  }

  lemma OnesOfWord()
    ensures Ones(32) == 0xFFFF_FFFF
  {
    OnesOfByte();
    FourMoreOnes(8);
    FourMoreOnes(12);
    FourMoreOnes(16);
    FourMoreOnes(20);
    FourMoreOnes(24);
    FourMoreOnes(28);
  }

  lemma FourMoreOnes(w: nat)
    ensures Ones(w + 4) == 16 * Ones(w) + 15
  {
    assert Ones(w + 1) == 1 + 2 * Ones(w) && Ones(w + 2) == 1 + 2 * Ones(w + 1);
    assert Ones(w + 3) == 1 + 2 * Ones(w + 2) && Ones(w + 4) == 1 + 2 * Ones(w + 3);
  }

  lemma RotateWord(x: bv32, s: nat)
    requires s <= 32
    ensures RotateLeft(Of(x, 32), s) == Of(TurnBy(x, s), 32)
  {
    hide Of, TurnBy;
    TurnByOf(x, s);
  }

  /** Turning by the amounts that occur, at once. */
  function Turned(x: bv32, s: nat): bv32
  {
    match s
    case 4 => (x << 4) | (x >> 28)
    case 5 => (x << 5) | (x >> 27)
    case 6 => (x << 6) | (x >> 26)
    case 7 => (x << 7) | (x >> 25)
    case 9 => (x << 9) | (x >> 23)
    case 10 => (x << 10) | (x >> 22)
    case 11 => (x << 11) | (x >> 21)
    case 12 => (x << 12) | (x >> 20)
    case 14 => (x << 14) | (x >> 18)
    case 15 => (x << 15) | (x >> 17)
    case 16 => (x << 16) | (x >> 16)
    case 17 => (x << 17) | (x >> 15)
    case 20 => (x << 20) | (x >> 12)
    case 21 => (x << 21) | (x >> 11)
    case 22 => (x << 22) | (x >> 10)
    case 23 => (x << 23) | (x >> 9)
    case _ => x
  }

  lemma {:induction false} TurnAdd(x: bv32, m: nat, n: nat)
    ensures TurnBy(TurnBy(x, m), n) == TurnBy(x, m + n)
    decreases n
  {
    hide TurnOne;
    if n > 0 {
      TurnAdd(x, m, n - 1);
    }
  }

  lemma SmallTurns(x: bv32)
    ensures Turned(x, 4) == TurnBy(x, 4) && Turned(x, 5) == TurnBy(x, 5)
    ensures Turned(x, 6) == TurnBy(x, 6) && Turned(x, 7) == TurnBy(x, 7)
  {
    FewTurns(x);
    TurnsAre(x);
  }

  /** Turning by so many steps is turning as often. */
  lemma FewTurns(x: bv32)
    ensures TurnBy(x, 4) == TurnOne(TurnOne(TurnOne(TurnOne(x))))
    ensures TurnBy(x, 5) == TurnOne(TurnBy(x, 4)) && TurnBy(x, 6) == TurnOne(TurnBy(x, 5))
    ensures TurnBy(x, 7) == TurnOne(TurnBy(x, 6))
  {
    hide TurnOne;
  }

  lemma TurnsAre(x: bv32)
    ensures TurnOne(TurnOne(TurnOne(TurnOne(x)))) == Turned(x, 4)
    ensures TurnOne(Turned(x, 4)) == Turned(x, 5) && TurnOne(Turned(x, 5)) == Turned(x, 6)
    ensures TurnOne(Turned(x, 6)) == Turned(x, 7)
  {
    hide TurnOne, Turned;
    FirstFour(x);
    Fifth(x);
    Sixth(x);
    Seventh(x);
  }

  lemma FirstFour(x: bv32)
    ensures TurnOne(TurnOne(TurnOne(TurnOne(x)))) == Turned(x, 4)
  {
  }

  lemma Fifth(x: bv32)
    ensures TurnOne(Turned(x, 4)) == Turned(x, 5)
  {
  }

  lemma Sixth(x: bv32)
    ensures TurnOne(Turned(x, 5)) == Turned(x, 6)
  {
  }

  lemma Seventh(x: bv32)
    ensures TurnOne(Turned(x, 6)) == Turned(x, 7)
  {
  }

  lemma Twice9(x: bv32)
    ensures Turned(Turned(x, 4), 5) == Turned(x, 9)
  {
  }

  lemma Twice10(x: bv32)
    ensures Turned(Turned(x, 5), 5) == Turned(x, 10)
  {
  }

  lemma Twice11(x: bv32)
    ensures Turned(Turned(x, 5), 6) == Turned(x, 11)
  {
  }

  lemma Twice12(x: bv32)
    ensures Turned(Turned(x, 6), 6) == Turned(x, 12)
  {
  }

  lemma Twice14(x: bv32)
    ensures Turned(Turned(x, 7), 7) == Turned(x, 14)
  {
  }

  lemma Twice15(x: bv32)
    ensures Turned(Turned(x, 4), 11) == Turned(x, 15)
  {
  }

  lemma Twice16(x: bv32)
    ensures Turned(Turned(x, 7), 9) == Turned(x, 16)
  {
  }

  lemma Twice17(x: bv32)
    ensures Turned(Turned(x, 5), 12) == Turned(x, 17)
  {
  }

  lemma Twice20(x: bv32)
    ensures Turned(Turned(x, 9), 11) == Turned(x, 20)
  {
  }

  lemma Twice21(x: bv32)
    ensures Turned(Turned(x, 10), 11) == Turned(x, 21)
  {
  }

  lemma Twice22(x: bv32)
    ensures Turned(Turned(x, 11), 11) == Turned(x, 22)
  {
  }

  lemma Twice23(x: bv32)
    ensures Turned(Turned(x, 11), 12) == Turned(x, 23)
  {
  }

  predicate Occurs(s: nat)
  {
    s in {4, 5, 6, 7, 9, 10, 11, 12, 14, 15, 16, 17, 20, 21, 22, 23}
  }

  lemma TurnedIs(x: bv32, s: nat)
    requires Occurs(s)
    ensures Turned(x, s) == TurnBy(x, s)
    decreases s
  {
    hide Turned, TurnBy;
    SmallTurns(x);
    if s == 9 {
      TurnedIs(x, 4);
      TurnedIs(Turned(x, 4), 5);
      TurnAdd(x, 4, 5);
      Twice9(x);
    } else if s == 10 {
      TurnedIs(x, 5);
      TurnedIs(Turned(x, 5), 5);
      TurnAdd(x, 5, 5);
      Twice10(x);
    } else if s == 11 {
      TurnedIs(x, 5);
      TurnedIs(Turned(x, 5), 6);
      TurnAdd(x, 5, 6);
      Twice11(x);
    } else if s == 12 {
      TurnedIs(x, 6);
      TurnedIs(Turned(x, 6), 6);
      TurnAdd(x, 6, 6);
      Twice12(x);
    } else if s == 14 {
      TurnedIs(x, 7);
      TurnedIs(Turned(x, 7), 7);
      TurnAdd(x, 7, 7);
      Twice14(x);
    } else if s == 15 {
      TurnedIs(x, 4);
      TurnedIs(Turned(x, 4), 11);
      TurnAdd(x, 4, 11);
      Twice15(x);
    } else if s == 16 {
      TurnedIs(x, 7);
      TurnedIs(Turned(x, 7), 9);
      TurnAdd(x, 7, 9);
      Twice16(x);
    } else if s == 17 {
      TurnedIs(x, 5);
      TurnedIs(Turned(x, 5), 12);
      TurnAdd(x, 5, 12);
      Twice17(x);
    } else if s == 20 {
      TurnedIs(x, 9);
      TurnedIs(Turned(x, 9), 11);
      TurnAdd(x, 9, 11);
      Twice20(x);
    } else if s == 21 {
      TurnedIs(x, 10);
      TurnedIs(Turned(x, 10), 11);
      TurnAdd(x, 10, 11);
      Twice21(x);
    } else if s == 22 {
      TurnedIs(x, 11);
      TurnedIs(Turned(x, 11), 11);
      TurnAdd(x, 11, 11);
      Twice22(x);
    } else if s == 23 {
      TurnedIs(x, 11);
      TurnedIs(Turned(x, 11), 12);
      TurnAdd(x, 11, 12);
      Twice23(x);
    }
  }

  lemma TurnOccurs(i: nat)
    requires i < 64
    ensures Occurs(Turn(i))
  {
  }

  datatype Four = Four(a: bv32, b: bv32, c: bv32, d: bv32)

  function StateOf(q: Four): State
  {
    State(Of(q.a, 32), Of(q.b, 32), Of(q.c, 32), Of(q.d, 32))
  }

  function MixOf(i: nat, x: bv32, y: bv32, z: bv32): bv32
  {
    if i < 16 then Either(Both(x, y), Both(Flipped(x), z))
    else if i < 32 then Either(Both(x, z), Both(y, Flipped(z)))
    else if i < 48 then Differ(Differ(x, y), z)
    else Differ(y, Either(x, Flipped(z)))
  }

  lemma MixWords(i: nat, x: bv32, y: bv32, z: bv32)
    ensures Md5Digest.Mix(i, Of(x, 32), Of(y, 32), Of(z, 32)) == Of(MixOf(i, x, y, z), 32)
  {
    hide And, Or, Xor, Not, Of, Both, Either, Flipped, Differ;
    if i < 16 {
      AndWords(x, y);
      NotWord(x);
      AndWords(Flipped(x), z);
      OrWords(Both(x, y), Both(Flipped(x), z));
    } else if i < 32 {
      AndWords(x, z);
      NotWord(z);
      AndWords(y, Flipped(z));
      OrWords(Both(x, z), Both(y, Flipped(z)));
    } else if i < 48 {
      XorOf(x, y, 32);
      XorOf(Differ(x, y), z, 32);
    } else {
      NotWord(z);
      OrWords(x, Flipped(z));
      XorOf(y, Either(x, Flipped(z)), 32);
    }
  }

  function OperationOf(q: Four, i: nat, x: bv32, t: bv32, s: nat): Four
  {
    var sum := Plus(Plus(q.a, Plus(MixOf(i, q.b, q.c, q.d), x)), t);
    Four(q.d, Plus(q.b, Turned(sum, s)), q.b, q.c)
  }

  lemma OperationWords(q: Four, i: nat, x: bv32)
    requires i < 64
    ensures Operation(StateOf(q), i, Of(x, 32)) == StateOf(OperationOf(q, i, x, Sine(i), Turn(i)))
  {
    hide Of, MixOf, Md5Digest.Mix, Plus, Add, RotateLeft, TurnBy, Turned, Turn, Occurs;
    var mixed, t := MixOf(i, q.b, q.c, q.d), Sine(i);
    MixWords(i, q.b, q.c, q.d);
    AddWords(mixed, x);
    AddWords(q.a, Plus(mixed, x));
    var most := Plus(q.a, Plus(mixed, x));
    AddWords(most, t);
    RotateWord(Plus(most, t), Turn(i));
    TurnOccurs(i);
    TurnedIs(Plus(most, t), Turn(i));
    AddWords(q.b, TurnBy(Plus(most, t), Turn(i)));
  }

  // The message.

  const ALPHABET: seq<byte> := seq(26, i requires 0 <= i < 26 => 97 + i)

  /** With its padding it is one block. */
  const BLOCK: seq<byte> := seq(64, i requires 0 <= i < 64 => BlockByte(i))

  function BlockByte(i: nat): byte
  {
    if i < 26 then 97 + i else if i == 26 then 0x80 else if i == 56 then 208 else 0
  }

  lemma PaddedAlphabet()
    ensures Padded(ALPHABET) == BLOCK
  {
    var zeros, length := Zeroed(29), BitLength(ALPHABET);
    assert (55 - |ALPHABET|) % 64 == 29;
    assert 8 * |ALPHABET| % 0x1_0000_0000_0000_0000 == 208;
    LengthBytes();
    hide BitLength, Zeroed;
    assert Padded(ALPHABET) == ALPHABET + [0x80] + zeros + length;
  }

  lemma LengthBytes()
    ensures Le32(208 % 0x1_0000_0000) + Le32(208 / 0x1_0000_0000) == [208, 0, 0, 0, 0, 0, 0, 0]
  {
    assert 208 % 0x1_0000_0000 == 208 && 208 / 0x1_0000_0000 == 0;
    assert Le16(208) == [208, 0] && Le16(0) == [0, 0];
    assert Le32(208) == Le16(208) + Le16(0) && Le32(0) == Le16(0) + Le16(0);
  }

  /** A byte has the low bits of a word. */
  predicate LowByte(b: byte, v: bv32)
  {
    && (b % 2 == 1) == Odd(v) && (b / 2 % 2 == 1) == Odd(Half(v))
    && (b / 4 % 2 == 1) == Odd(Half(Half(v))) && (b / 8 % 2 == 1) == Odd(Half(Half(Half(v))))
    && (b / 16 % 2 == 1) == Odd(Half(Half(Half(Half(v)))))
    && (b / 32 % 2 == 1) == Odd(Half(Half(Half(Half(Half(v))))))
    && (b / 64 % 2 == 1) == Odd(Half(Half(Half(Half(Half(Half(v)))))))
    && (b / 128 % 2 == 1) == Odd(Half(Half(Half(Half(Half(Half(Half(v))))))))
  }

  lemma ByteBits(b: byte, v: bv32)
    requires LowByte(b, v)
    ensures Bits8(b) == Of(v, 8)
  {
    hide Odd, Half, ToBits, Of;
    Divisions(b);
    NoneLow(b / 128 / 2, Half(Half(Half(Half(Half(Half(Half(Half(v)))))))));
    var v1, v2, v3 := Half(v), Half(Half(v)), Half(Half(Half(v)));
    var v4, v5, v6 := Half(v3), Half(Half(v3)), Half(Half(Half(v3)));
    LowMore(b / 128, Half(v6), 0);
    LowMore(b / 64, v6, 1);
    LowMore(b / 32, v5, 2);
    LowMore(b / 16, v4, 3);
    LowMore(b / 8, v3, 4);
    LowMore(b / 4, v2, 5);
    LowMore(b / 2, v1, 6);
    LowMore(b, v, 7);
  }

  lemma Divisions(b: byte)
    ensures b / 2 / 2 == b / 4 && b / 4 / 2 == b / 8 && b / 8 / 2 == b / 16 && b / 16 / 2 == b / 32
    ensures b / 32 / 2 == b / 64 && b / 64 / 2 == b / 128
  {
  }

  lemma NoneLow(c: nat, v: bv32)
    ensures ToBits(c, 0) == Of(v, 0)
  {
  }

  lemma LowMore(c: nat, v: bv32, w: nat)
    requires ToBits(c / 2, w) == Of(Half(v), w) && (c % 2 == 1) == Odd(v)
    ensures ToBits(c, w + 1) == Of(v, w + 1)
  {
    hide Odd, Half;
  }

  lemma WordLoaded(block: seq<byte>, i: nat, v: bv32)
    requires i + 4 <= |block| && LowByte(block[i], v) && LowByte(block[i + 1], v >> 8)
    requires LowByte(block[i + 2], v >> 16) && LowByte(block[i + 3], v >> 24)
    ensures Load(block, i) == Of(v, 32)
  {
    hide LowByte, Of, Bits8;
    ByteBits(block[i], v);
    ByteBits(block[i + 1], v >> 8);
    ByteBits(block[i + 2], v >> 16);
    ByteBits(block[i + 3], v >> 24);
    FourBytes(v);
  }

  lemma FourBytes(v: bv32)
    ensures Of(v, 32) == Of(v, 8) + Of(v >> 8, 8) + Of(v >> 16, 8) + Of(v >> 24, 8)
  {
    hide Of, Halves;
    ByteOff(v, 32);
    ByteOff(v >> 8, 24);
    ByteOff(v >> 16, 16);
    Shifts(v);
    FourParts(Of(v, 8), Of(v >> 8, 8), Of(v >> 16, 8), Of(v >> 24, 8));
  }

  lemma FourParts(a: Bits, b: Bits, c: Bits, d: Bits)
    ensures a + (b + (c + d)) == a + b + c + d
  {
  }

  lemma ByteOff(v: bv32, w: nat)
    requires w >= 8
    ensures Of(v, w) == Of(v, 8) + Of(v >> 8, w - 8)
  {
    hide Of, Halves;
    HalvesOf(v, 8, w);
    HalvesShift(v);
  }

  lemma Shifts(v: bv32)
    ensures (v >> 8) >> 8 == v >> 16 && (v >> 16) >> 8 == v >> 24
  {
  }

  lemma Words0()
    ensures Load(BLOCK, 0) == Of(0x6463_6261, 32)
    ensures Load(BLOCK, 4) == Of(0x6867_6665, 32)
  {
    hide Load, Of;
    WordLoaded(BLOCK, 0, 0x6463_6261);
    WordLoaded(BLOCK, 4, 0x6867_6665);
  }

  lemma Words1()
    ensures Load(BLOCK, 8) == Of(0x6C6B_6A69, 32)
    ensures Load(BLOCK, 12) == Of(0x706F_6E6D, 32)
  {
    hide Load, Of;
    WordLoaded(BLOCK, 8, 0x6C6B_6A69);
    WordLoaded(BLOCK, 12, 0x706F_6E6D);
  }

  lemma Words2()
    ensures Load(BLOCK, 16) == Of(0x7473_7271, 32)
    ensures Load(BLOCK, 20) == Of(0x7877_7675, 32)
  {
    hide Load, Of;
    WordLoaded(BLOCK, 16, 0x7473_7271);
    WordLoaded(BLOCK, 20, 0x7877_7675);
  }

  lemma Words3()
    ensures Load(BLOCK, 24) == Of(0x80_7A79, 32)
    ensures Load(BLOCK, 28) == Of(0x0, 32)
  {
    hide Load, Of;
    WordLoaded(BLOCK, 24, 0x80_7A79);
    WordLoaded(BLOCK, 28, 0x0);
  }

  lemma Words4()
    ensures Load(BLOCK, 32) == Of(0x0, 32)
    ensures Load(BLOCK, 36) == Of(0x0, 32)
  {
    hide Load, Of;
    WordLoaded(BLOCK, 32, 0x0);
    WordLoaded(BLOCK, 36, 0x0);
  }

  lemma Words5()
    ensures Load(BLOCK, 40) == Of(0x0, 32)
    ensures Load(BLOCK, 44) == Of(0x0, 32)
  {
    hide Load, Of;
    WordLoaded(BLOCK, 40, 0x0);
    WordLoaded(BLOCK, 44, 0x0);
  }

  lemma Words6()
    ensures Load(BLOCK, 48) == Of(0x0, 32)
    ensures Load(BLOCK, 52) == Of(0x0, 32)
  {
    hide Load, Of;
    WordLoaded(BLOCK, 48, 0x0);
    WordLoaded(BLOCK, 52, 0x0);
  }

  lemma Words7()
    ensures Load(BLOCK, 56) == Of(0xD0, 32)
    ensures Load(BLOCK, 60) == Of(0x0, 32)
  {
    hide Load, Of;
    WordLoaded(BLOCK, 56, 0xD0);
    WordLoaded(BLOCK, 60, 0x0);
  }

  // The 64 steps.

  lemma StartWords()
    ensures Rounds(START, BLOCK, 0) == StateOf(Four(0x6745_2301, 0xEFCD_AB89, 0x98BA_DCFE, 0x1032_5476))
  {
    hide Of;
  }

  lemma NextStep(n: nat, q: Four, k: nat, x: bv32, t: bv32, s: nat, r: Four)
    requires n < 64 && Rounds(START, BLOCK, n) == StateOf(q) && Pick(n) == k && Load(BLOCK, 4 * k) == Of(x, 32)
    requires Sine(n) == t && Turn(n) == s && OperationOf(q, n, x, t, s) == r
    ensures Rounds(START, BLOCK, n + 1) == StateOf(r)
  {
    hide Operation, OperationOf, StateOf, Load, Of, Pick, Turn;
    OperationWords(q, n, x);
  }

  lemma Steps1()
    ensures Rounds(START, BLOCK, 1) == StateOf(Four(0x1032_5476, 0xD6D1_17A6, 0xEFCD_AB89, 0x98BA_DCFE))
  {
    hide Rounds, StateOf, Load, Of;
    StartWords();
    Words0();
    NextStep(0, Four(0x6745_2301, 0xEFCD_AB89, 0x98BA_DCFE, 0x1032_5476), 0, 0x6463_6261, 0xD76A_A478, 7,
             Four(0x1032_5476, 0xD6D1_17A6, 0xEFCD_AB89, 0x98BA_DCFE));
  }

  lemma Steps2()
    ensures Rounds(START, BLOCK, 2) == StateOf(Four(0x98BA_DCFE, 0xAAB1_AAAA, 0xD6D1_17A6, 0xEFCD_AB89))
  {
    hide Rounds, StateOf, Load, Of;
    Steps1();
    Words0();
    NextStep(1, Four(0x1032_5476, 0xD6D1_17A6, 0xEFCD_AB89, 0x98BA_DCFE), 1, 0x6867_6665, 0xE8C7_B756, 12,
             Four(0x98BA_DCFE, 0xAAB1_AAAA, 0xD6D1_17A6, 0xEFCD_AB89));
  }

  lemma Steps3()
    ensures Rounds(START, BLOCK, 3) == StateOf(Four(0xEFCD_AB89, 0x227D_8CF1, 0xAAB1_AAAA, 0xD6D1_17A6))
  {
    hide Rounds, StateOf, Load, Of;
    Steps2();
    Words1();
    NextStep(2, Four(0x98BA_DCFE, 0xAAB1_AAAA, 0xD6D1_17A6, 0xEFCD_AB89), 2, 0x6C6B_6A69, 0x2420_70DB, 17,
             Four(0xEFCD_AB89, 0x227D_8CF1, 0xAAB1_AAAA, 0xD6D1_17A6));
  }

  lemma Steps4()
    ensures Rounds(START, BLOCK, 4) == StateOf(Four(0xD6D1_17A6, 0x4503_B812, 0x227D_8CF1, 0xAAB1_AAAA))
  {
    hide Rounds, StateOf, Load, Of;
    Steps3();
    Words1();
    NextStep(3, Four(0xEFCD_AB89, 0x227D_8CF1, 0xAAB1_AAAA, 0xD6D1_17A6), 3, 0x706F_6E6D, 0xC1BD_CEEE, 22,
             Four(0xD6D1_17A6, 0x4503_B812, 0x227D_8CF1, 0xAAB1_AAAA));
  }

  lemma Steps5()
    ensures Rounds(START, BLOCK, 5) == StateOf(Four(0xAAB1_AAAA, 0xFE15_F787, 0x4503_B812, 0x227D_8CF1))
  {
    hide Rounds, StateOf, Load, Of;
    Steps4();
    Words2();
    NextStep(4, Four(0xD6D1_17A6, 0x4503_B812, 0x227D_8CF1, 0xAAB1_AAAA), 4, 0x7473_7271, 0xF57C_0FAF, 7,
             Four(0xAAB1_AAAA, 0xFE15_F787, 0x4503_B812, 0x227D_8CF1));
  }

  lemma Steps6()
    ensures Rounds(START, BLOCK, 6) == StateOf(Four(0x227D_8CF1, 0xA811_B278, 0xFE15_F787, 0x4503_B812))
  {
    hide Rounds, StateOf, Load, Of;
    Steps5();
    Words2();
    NextStep(5, Four(0xAAB1_AAAA, 0xFE15_F787, 0x4503_B812, 0x227D_8CF1), 5, 0x7877_7675, 0x4787_C62A, 12,
             Four(0x227D_8CF1, 0xA811_B278, 0xFE15_F787, 0x4503_B812));
  }

  lemma Steps7()
    ensures Rounds(START, BLOCK, 7) == StateOf(Four(0x4503_B812, 0xB711_22FC, 0xA811_B278, 0xFE15_F787))
  {
    hide Rounds, StateOf, Load, Of;
    Steps6();
    Words3();
    NextStep(6, Four(0x227D_8CF1, 0xA811_B278, 0xFE15_F787, 0x4503_B812), 6, 0x80_7A79, 0xA830_4613, 17,
             Four(0x4503_B812, 0xB711_22FC, 0xA811_B278, 0xFE15_F787));
  }

  lemma Steps8()
    ensures Rounds(START, BLOCK, 8) == StateOf(Four(0xFE15_F787, 0xDA9B_BB0D, 0xB711_22FC, 0xA811_B278))
  {
    hide Rounds, StateOf, Load, Of;
    Steps7();
    Words3();
    NextStep(7, Four(0x4503_B812, 0xB711_22FC, 0xA811_B278, 0xFE15_F787), 7, 0x0, 0xFD46_9501, 22,
             Four(0xFE15_F787, 0xDA9B_BB0D, 0xB711_22FC, 0xA811_B278));
  }

  lemma Steps9()
    ensures Rounds(START, BLOCK, 9) == StateOf(Four(0xA811_B278, 0xAE75_2899, 0xDA9B_BB0D, 0xB711_22FC))
  {
    hide Rounds, StateOf, Load, Of;
    Steps8();
    Words4();
    NextStep(8, Four(0xFE15_F787, 0xDA9B_BB0D, 0xB711_22FC, 0xA811_B278), 8, 0x0, 0x6980_98D8, 7,
             Four(0xA811_B278, 0xAE75_2899, 0xDA9B_BB0D, 0xB711_22FC));
  }

  lemma Steps10()
    ensures Rounds(START, BLOCK, 10) == StateOf(Four(0xB711_22FC, 0x2BBE_757F, 0xAE75_2899, 0xDA9B_BB0D))
  {
    hide Rounds, StateOf, Load, Of;
    Steps9();
    Words4();
    NextStep(9, Four(0xA811_B278, 0xAE75_2899, 0xDA9B_BB0D, 0xB711_22FC), 9, 0x0, 0x8B44_F7AF, 12,
             Four(0xB711_22FC, 0x2BBE_757F, 0xAE75_2899, 0xDA9B_BB0D));
  }

  lemma Steps11()
    ensures Rounds(START, BLOCK, 11) == StateOf(Four(0xDA9B_BB0D, 0x7D4B_D80B, 0x2BBE_757F, 0xAE75_2899))
  {
    hide Rounds, StateOf, Load, Of;
    Steps10();
    Words5();
    NextStep(10, Four(0xB711_22FC, 0x2BBE_757F, 0xAE75_2899, 0xDA9B_BB0D), 10, 0x0, 0xFFFF_5BB1, 17,
             Four(0xDA9B_BB0D, 0x7D4B_D80B, 0x2BBE_757F, 0xAE75_2899));
  }

  lemma Steps12()
    ensures Rounds(START, BLOCK, 12) == StateOf(Four(0xAE75_2899, 0x56CF_A5CB, 0x7D4B_D80B, 0x2BBE_757F))
  {
    hide Rounds, StateOf, Load, Of;
    Steps11();
    Words5();
    NextStep(11, Four(0xDA9B_BB0D, 0x7D4B_D80B, 0x2BBE_757F, 0xAE75_2899), 11, 0x0, 0x895C_D7BE, 22,
             Four(0xAE75_2899, 0x56CF_A5CB, 0x7D4B_D80B, 0x2BBE_757F));
  }

  lemma Steps13()
    ensures Rounds(START, BLOCK, 13) == StateOf(Four(0x2BBE_757F, 0x1754_A316, 0x56CF_A5CB, 0x7D4B_D80B))
  {
    hide Rounds, StateOf, Load, Of;
    Steps12();
    Words6();
    NextStep(12, Four(0xAE75_2899, 0x56CF_A5CB, 0x7D4B_D80B, 0x2BBE_757F), 12, 0x0, 0x6B90_1122, 7,
             Four(0x2BBE_757F, 0x1754_A316, 0x56CF_A5CB, 0x7D4B_D80B));
  }

  lemma Steps14()
    ensures Rounds(START, BLOCK, 14) == StateOf(Four(0x7D4B_D80B, 0x8556_7D90, 0x1754_A316, 0x56CF_A5CB))
  {
    hide Rounds, StateOf, Load, Of;
    Steps13();
    Words6();
    NextStep(13, Four(0x2BBE_757F, 0x1754_A316, 0x56CF_A5CB, 0x7D4B_D80B), 13, 0x0, 0xFD98_7193, 12,
             Four(0x7D4B_D80B, 0x8556_7D90, 0x1754_A316, 0x56CF_A5CB));
  }

  lemma Steps15()
    ensures Rounds(START, BLOCK, 15) == StateOf(Four(0x56CF_A5CB, 0xDF_74D5, 0x8556_7D90, 0x1754_A316))
  {
    hide Rounds, StateOf, Load, Of;
    Steps14();
    Words7();
    NextStep(14, Four(0x7D4B_D80B, 0x8556_7D90, 0x1754_A316, 0x56CF_A5CB), 14, 0xD0, 0xA679_438E, 17,
             Four(0x56CF_A5CB, 0xDF_74D5, 0x8556_7D90, 0x1754_A316));
  }

  lemma Steps16()
    ensures Rounds(START, BLOCK, 16) == StateOf(Four(0x1754_A316, 0x608D_6B7E, 0xDF_74D5, 0x8556_7D90))
  {
    hide Rounds, StateOf, Load, Of;
    Steps15();
    Words7();
    NextStep(15, Four(0x56CF_A5CB, 0xDF_74D5, 0x8556_7D90, 0x1754_A316), 15, 0x0, 0x49B4_0821, 22,
             Four(0x1754_A316, 0x608D_6B7E, 0xDF_74D5, 0x8556_7D90));
  }

  lemma Steps17()
    ensures Rounds(START, BLOCK, 17) == StateOf(Four(0x8556_7D90, 0x2D80_71CC, 0x608D_6B7E, 0xDF_74D5))
  {
    hide Rounds, StateOf, Load, Of;
    Steps16();
    Words0();
    NextStep(16, Four(0x1754_A316, 0x608D_6B7E, 0xDF_74D5, 0x8556_7D90), 1, 0x6867_6665, 0xF61E_2562, 5,
             Four(0x8556_7D90, 0x2D80_71CC, 0x608D_6B7E, 0xDF_74D5));
  }

  lemma Steps18()
    ensures Rounds(START, BLOCK, 18) == StateOf(Four(0xDF_74D5, 0x5DCE_E119, 0x2D80_71CC, 0x608D_6B7E))
  {
    hide Rounds, StateOf, Load, Of;
    Steps17();
    Words3();
    NextStep(17, Four(0x8556_7D90, 0x2D80_71CC, 0x608D_6B7E, 0xDF_74D5), 6, 0x80_7A79, 0xC040_B340, 9,
             Four(0xDF_74D5, 0x5DCE_E119, 0x2D80_71CC, 0x608D_6B7E));
  }

  lemma Steps19()
    ensures Rounds(START, BLOCK, 19) == StateOf(Four(0x608D_6B7E, 0xEDFE_7E4B, 0x5DCE_E119, 0x2D80_71CC))
  {
    hide Rounds, StateOf, Load, Of;
    Steps18();
    Words5();
    NextStep(18, Four(0xDF_74D5, 0x5DCE_E119, 0x2D80_71CC, 0x608D_6B7E), 11, 0x0, 0x265E_5A51, 14,
             Four(0x608D_6B7E, 0xEDFE_7E4B, 0x5DCE_E119, 0x2D80_71CC));
  }

  lemma Steps20()
    ensures Rounds(START, BLOCK, 20) == StateOf(Four(0x2D80_71CC, 0x4C21_45B3, 0xEDFE_7E4B, 0x5DCE_E119))
  {
    hide Rounds, StateOf, Load, Of;
    Steps19();
    Words0();
    NextStep(19, Four(0x608D_6B7E, 0xEDFE_7E4B, 0x5DCE_E119, 0x2D80_71CC), 0, 0x6463_6261, 0xE9B6_C7AA, 20,
             Four(0x2D80_71CC, 0x4C21_45B3, 0xEDFE_7E4B, 0x5DCE_E119));
  }

  lemma Steps21()
    ensures Rounds(START, BLOCK, 21) == StateOf(Four(0x5DCE_E119, 0x570C_43E0, 0x4C21_45B3, 0xEDFE_7E4B))
  {
    hide Rounds, StateOf, Load, Of;
    Steps20();
    Words2();
    NextStep(20, Four(0x2D80_71CC, 0x4C21_45B3, 0xEDFE_7E4B, 0x5DCE_E119), 5, 0x7877_7675, 0xD62F_105D, 5,
             Four(0x5DCE_E119, 0x570C_43E0, 0x4C21_45B3, 0xEDFE_7E4B));
  }

  lemma Steps22()
    ensures Rounds(START, BLOCK, 22) == StateOf(Four(0xEDFE_7E4B, 0x977E_FD2A, 0x570C_43E0, 0x4C21_45B3))
  {
    hide Rounds, StateOf, Load, Of;
    Steps21();
    Words5();
    NextStep(21, Four(0x5DCE_E119, 0x570C_43E0, 0x4C21_45B3, 0xEDFE_7E4B), 10, 0x0, 0x244_1453, 9,
             Four(0xEDFE_7E4B, 0x977E_FD2A, 0x570C_43E0, 0x4C21_45B3));
  }

  lemma Steps23()
    ensures Rounds(START, BLOCK, 23) == StateOf(Four(0x4C21_45B3, 0xC28A_B49D, 0x977E_FD2A, 0x570C_43E0))
  {
    hide Rounds, StateOf, Load, Of;
    Steps22();
    Words7();
    NextStep(22, Four(0xEDFE_7E4B, 0x977E_FD2A, 0x570C_43E0, 0x4C21_45B3), 15, 0x0, 0xD8A1_E681, 14,
             Four(0x4C21_45B3, 0xC28A_B49D, 0x977E_FD2A, 0x570C_43E0));
  }

  lemma Steps24()
    ensures Rounds(START, BLOCK, 24) == StateOf(Four(0x570C_43E0, 0xC9F1_62D4, 0xC28A_B49D, 0x977E_FD2A))
  {
    hide Rounds, StateOf, Load, Of;
    Steps23();
    Words2();
    NextStep(23, Four(0x4C21_45B3, 0xC28A_B49D, 0x977E_FD2A, 0x570C_43E0), 4, 0x7473_7271, 0xE7D3_FBC8, 20,
             Four(0x570C_43E0, 0xC9F1_62D4, 0xC28A_B49D, 0x977E_FD2A));
  }

  lemma Steps25()
    ensures Rounds(START, BLOCK, 25) == StateOf(Four(0x977E_FD2A, 0x25BF_AE3B, 0xC9F1_62D4, 0xC28A_B49D))
  {
    hide Rounds, StateOf, Load, Of;
    Steps24();
    Words4();
    NextStep(24, Four(0x570C_43E0, 0xC9F1_62D4, 0xC28A_B49D, 0x977E_FD2A), 9, 0x0, 0x21E1_CDE6, 5,
             Four(0x977E_FD2A, 0x25BF_AE3B, 0xC9F1_62D4, 0xC28A_B49D));
  }

  lemma Steps26()
    ensures Rounds(START, BLOCK, 26) == StateOf(Four(0xC28A_B49D, 0x8998_0104, 0x25BF_AE3B, 0xC9F1_62D4))
  {
    hide Rounds, StateOf, Load, Of;
    Steps25();
    Words7();
    NextStep(25, Four(0x977E_FD2A, 0x25BF_AE3B, 0xC9F1_62D4, 0xC28A_B49D), 14, 0xD0, 0xC337_07D6, 9,
             Four(0xC28A_B49D, 0x8998_0104, 0x25BF_AE3B, 0xC9F1_62D4));
  }

  lemma Steps27()
    ensures Rounds(START, BLOCK, 27) == StateOf(Four(0xC9F1_62D4, 0xF8C8_365F, 0x8998_0104, 0x25BF_AE3B))
  {
    hide Rounds, StateOf, Load, Of;
    Steps26();
    Words1();
    NextStep(26, Four(0xC28A_B49D, 0x8998_0104, 0x25BF_AE3B, 0xC9F1_62D4), 3, 0x706F_6E6D, 0xF4D5_0D87, 14,
             Four(0xC9F1_62D4, 0xF8C8_365F, 0x8998_0104, 0x25BF_AE3B));
  }

  lemma Steps28()
    ensures Rounds(START, BLOCK, 28) == StateOf(Four(0x25BF_AE3B, 0xE6D3_B398, 0xF8C8_365F, 0x8998_0104))
  {
    hide Rounds, StateOf, Load, Of;
    Steps27();
    Words4();
    NextStep(27, Four(0xC9F1_62D4, 0xF8C8_365F, 0x8998_0104, 0x25BF_AE3B), 8, 0x0, 0x455A_14ED, 20,
             Four(0x25BF_AE3B, 0xE6D3_B398, 0xF8C8_365F, 0x8998_0104));
  }

  lemma Steps29()
    ensures Rounds(START, BLOCK, 29) == StateOf(Four(0x8998_0104, 0xF54D_8710, 0xE6D3_B398, 0xF8C8_365F))
  {
    hide Rounds, StateOf, Load, Of;
    Steps28();
    Words6();
    NextStep(28, Four(0x25BF_AE3B, 0xE6D3_B398, 0xF8C8_365F, 0x8998_0104), 13, 0x0, 0xA9E3_E905, 5,
             Four(0x8998_0104, 0xF54D_8710, 0xE6D3_B398, 0xF8C8_365F));
  }

  lemma Steps30()
    ensures Rounds(START, BLOCK, 30) == StateOf(Four(0xF8C8_365F, 0x927B_72E2, 0xF54D_8710, 0xE6D3_B398))
  {
    hide Rounds, StateOf, Load, Of;
    Steps29();
    Words1();
    NextStep(29, Four(0x8998_0104, 0xF54D_8710, 0xE6D3_B398, 0xF8C8_365F), 2, 0x6C6B_6A69, 0xFCEF_A3F8, 9,
             Four(0xF8C8_365F, 0x927B_72E2, 0xF54D_8710, 0xE6D3_B398));
  }

  lemma Steps31()
    ensures Rounds(START, BLOCK, 31) == StateOf(Four(0xE6D3_B398, 0x2E69_AFC7, 0x927B_72E2, 0xF54D_8710))
  {
    hide Rounds, StateOf, Load, Of;
    Steps30();
    Words3();
    NextStep(30, Four(0xF8C8_365F, 0x927B_72E2, 0xF54D_8710, 0xE6D3_B398), 7, 0x0, 0x676F_02D9, 14,
             Four(0xE6D3_B398, 0x2E69_AFC7, 0x927B_72E2, 0xF54D_8710));
  }

  lemma Steps32()
    ensures Rounds(START, BLOCK, 32) == StateOf(Four(0xF54D_8710, 0xAEB3_5766, 0x2E69_AFC7, 0x927B_72E2))
  {
    hide Rounds, StateOf, Load, Of;
    Steps31();
    Words6();
    NextStep(31, Four(0xE6D3_B398, 0x2E69_AFC7, 0x927B_72E2, 0xF54D_8710), 12, 0x0, 0x8D2A_4C8A, 20,
             Four(0xF54D_8710, 0xAEB3_5766, 0x2E69_AFC7, 0x927B_72E2));
  }

  lemma Steps33()
    ensures Rounds(START, BLOCK, 33) == StateOf(Four(0x927B_72E2, 0xB4BF_680E, 0xAEB3_5766, 0x2E69_AFC7))
  {
    hide Rounds, StateOf, Load, Of;
    Steps32();
    Words2();
    NextStep(32, Four(0xF54D_8710, 0xAEB3_5766, 0x2E69_AFC7, 0x927B_72E2), 5, 0x7877_7675, 0xFFFA_3942, 4,
             Four(0x927B_72E2, 0xB4BF_680E, 0xAEB3_5766, 0x2E69_AFC7));
  }

  lemma Steps34()
    ensures Rounds(START, BLOCK, 34) == StateOf(Four(0x2E69_AFC7, 0x4C8F_FA80, 0xB4BF_680E, 0xAEB3_5766))
  {
    hide Rounds, StateOf, Load, Of;
    Steps33();
    Words4();
    NextStep(33, Four(0x927B_72E2, 0xB4BF_680E, 0xAEB3_5766, 0x2E69_AFC7), 8, 0x0, 0x8771_F681, 11,
             Four(0x2E69_AFC7, 0x4C8F_FA80, 0xB4BF_680E, 0xAEB3_5766));
  }

  lemma Steps35()
    ensures Rounds(START, BLOCK, 35) == StateOf(Four(0xAEB3_5766, 0x2361_ED0A, 0x4C8F_FA80, 0xB4BF_680E))
  {
    hide Rounds, StateOf, Load, Of;
    Steps34();
    Words5();
    NextStep(34, Four(0x2E69_AFC7, 0x4C8F_FA80, 0xB4BF_680E, 0xAEB3_5766), 11, 0x0, 0x6D9D_6122, 16,
             Four(0xAEB3_5766, 0x2361_ED0A, 0x4C8F_FA80, 0xB4BF_680E));
  }

  lemma Steps36()
    ensures Rounds(START, BLOCK, 36) == StateOf(Four(0xB4BF_680E, 0x6A5_E211, 0x2361_ED0A, 0x4C8F_FA80))
  {
    hide Rounds, StateOf, Load, Of;
    Steps35();
    Words7();
    NextStep(35, Four(0xAEB3_5766, 0x2361_ED0A, 0x4C8F_FA80, 0xB4BF_680E), 14, 0xD0, 0xFDE5_380C, 23,
             Four(0xB4BF_680E, 0x6A5_E211, 0x2361_ED0A, 0x4C8F_FA80));
  }

  lemma Steps37()
    ensures Rounds(START, BLOCK, 37) == StateOf(Four(0x4C8F_FA80, 0xB9C0_C733, 0x6A5_E211, 0x2361_ED0A))
  {
    hide Rounds, StateOf, Load, Of;
    Steps36();
    Words0();
    NextStep(36, Four(0xB4BF_680E, 0x6A5_E211, 0x2361_ED0A, 0x4C8F_FA80), 1, 0x6867_6665, 0xA4BE_EA44, 4,
             Four(0x4C8F_FA80, 0xB9C0_C733, 0x6A5_E211, 0x2361_ED0A));
  }

  lemma Steps38()
    ensures Rounds(START, BLOCK, 38) == StateOf(Four(0x2361_ED0A, 0xF1E6_DC7A, 0xB9C0_C733, 0x6A5_E211))
  {
    hide Rounds, StateOf, Load, Of;
    Steps37();
    Words2();
    NextStep(37, Four(0x4C8F_FA80, 0xB9C0_C733, 0x6A5_E211, 0x2361_ED0A), 4, 0x7473_7271, 0x4BDE_CFA9, 11,
             Four(0x2361_ED0A, 0xF1E6_DC7A, 0xB9C0_C733, 0x6A5_E211));
  }

  lemma Steps39()
    ensures Rounds(START, BLOCK, 39) == StateOf(Four(0x6A5_E211, 0x23A9_451B, 0xF1E6_DC7A, 0xB9C0_C733))
  {
    hide Rounds, StateOf, Load, Of;
    Steps38();
    Words3();
    NextStep(38, Four(0x2361_ED0A, 0xF1E6_DC7A, 0xB9C0_C733, 0x6A5_E211), 7, 0x0, 0xF6BB_4B60, 16,
             Four(0x6A5_E211, 0x23A9_451B, 0xF1E6_DC7A, 0xB9C0_C733));
  }

  lemma Steps40()
    ensures Rounds(START, BLOCK, 40) == StateOf(Four(0xB9C0_C733, 0x8D41_BF99, 0x23A9_451B, 0xF1E6_DC7A))
  {
    hide Rounds, StateOf, Load, Of;
    Steps39();
    Words5();
    NextStep(39, Four(0x6A5_E211, 0x23A9_451B, 0xF1E6_DC7A, 0xB9C0_C733), 10, 0x0, 0xBEBF_BC70, 23,
             Four(0xB9C0_C733, 0x8D41_BF99, 0x23A9_451B, 0xF1E6_DC7A));
  }

  lemma Steps41()
    ensures Rounds(START, BLOCK, 41) == StateOf(Four(0xF1E6_DC7A, 0xA3E8_8EAD, 0x8D41_BF99, 0x23A9_451B))
  {
    hide Rounds, StateOf, Load, Of;
    Steps40();
    Words6();
    NextStep(40, Four(0xB9C0_C733, 0x8D41_BF99, 0x23A9_451B, 0xF1E6_DC7A), 13, 0x0, 0x289B_7EC6, 4,
             Four(0xF1E6_DC7A, 0xA3E8_8EAD, 0x8D41_BF99, 0x23A9_451B));
  }

  lemma Steps42()
    ensures Rounds(START, BLOCK, 42) == StateOf(Four(0x23A9_451B, 0x2C0_B11C, 0xA3E8_8EAD, 0x8D41_BF99))
  {
    hide Rounds, StateOf, Load, Of;
    Steps41();
    Words0();
    NextStep(41, Four(0xF1E6_DC7A, 0xA3E8_8EAD, 0x8D41_BF99, 0x23A9_451B), 0, 0x6463_6261, 0xEAA1_27FA, 11,
             Four(0x23A9_451B, 0x2C0_B11C, 0xA3E8_8EAD, 0x8D41_BF99));
  }

  lemma Steps43()
    ensures Rounds(START, BLOCK, 43) == StateOf(Four(0x8D41_BF99, 0x66F6_468D, 0x2C0_B11C, 0xA3E8_8EAD))
  {
    hide Rounds, StateOf, Load, Of;
    Steps42();
    Words1();
    NextStep(42, Four(0x23A9_451B, 0x2C0_B11C, 0xA3E8_8EAD, 0x8D41_BF99), 3, 0x706F_6E6D, 0xD4EF_3085, 16,
             Four(0x8D41_BF99, 0x66F6_468D, 0x2C0_B11C, 0xA3E8_8EAD));
  }

  lemma Steps44()
    ensures Rounds(START, BLOCK, 44) == StateOf(Four(0xA3E8_8EAD, 0x90A3_5AF5, 0x66F6_468D, 0x2C0_B11C))
  {
    hide Rounds, StateOf, Load, Of;
    Steps43();
    Words3();
    NextStep(43, Four(0x8D41_BF99, 0x66F6_468D, 0x2C0_B11C, 0xA3E8_8EAD), 6, 0x80_7A79, 0x488_1D05, 23,
             Four(0xA3E8_8EAD, 0x90A3_5AF5, 0x66F6_468D, 0x2C0_B11C));
  }

  lemma Steps45()
    ensures Rounds(START, BLOCK, 45) == StateOf(Four(0x2C0_B11C, 0xB5D4_1F9C, 0x90A3_5AF5, 0x66F6_468D))
  {
    hide Rounds, StateOf, Load, Of;
    Steps44();
    Words4();
    NextStep(44, Four(0xA3E8_8EAD, 0x90A3_5AF5, 0x66F6_468D, 0x2C0_B11C), 9, 0x0, 0xD9D4_D039, 4,
             Four(0x2C0_B11C, 0xB5D4_1F9C, 0x90A3_5AF5, 0x66F6_468D));
  }

  lemma Steps46()
    ensures Rounds(START, BLOCK, 46) == StateOf(Four(0x66F6_468D, 0xA04B_4904, 0xB5D4_1F9C, 0x90A3_5AF5))
  {
    hide Rounds, StateOf, Load, Of;
    Steps45();
    Words6();
    NextStep(45, Four(0x2C0_B11C, 0xB5D4_1F9C, 0x90A3_5AF5, 0x66F6_468D), 12, 0x0, 0xE6DB_99E5, 11,
             Four(0x66F6_468D, 0xA04B_4904, 0xB5D4_1F9C, 0x90A3_5AF5));
  }

  lemma Steps47()
    ensures Rounds(START, BLOCK, 47) == StateOf(Four(0x90A3_5AF5, 0x703D_54D8, 0xA04B_4904, 0xB5D4_1F9C))
  {
    hide Rounds, StateOf, Load, Of;
    Steps46();
    Words7();
    NextStep(46, Four(0x66F6_468D, 0xA04B_4904, 0xB5D4_1F9C, 0x90A3_5AF5), 15, 0x0, 0x1FA2_7CF8, 16,
             Four(0x90A3_5AF5, 0x703D_54D8, 0xA04B_4904, 0xB5D4_1F9C));
  }

  lemma Steps48()
    ensures Rounds(START, BLOCK, 48) == StateOf(Four(0xB5D4_1F9C, 0x71D1_0367, 0x703D_54D8, 0xA04B_4904))
  {
    hide Rounds, StateOf, Load, Of;
    Steps47();
    Words1();
    NextStep(47, Four(0x90A3_5AF5, 0x703D_54D8, 0xA04B_4904, 0xB5D4_1F9C), 2, 0x6C6B_6A69, 0xC4AC_5665, 23,
             Four(0xB5D4_1F9C, 0x71D1_0367, 0x703D_54D8, 0xA04B_4904));
  }

  lemma Steps49()
    ensures Rounds(START, BLOCK, 49) == StateOf(Four(0xA04B_4904, 0xFC32_DD6E, 0x71D1_0367, 0x703D_54D8))
  {
    hide Rounds, StateOf, Load, Of;
    Steps48();
    Words0();
    NextStep(48, Four(0xB5D4_1F9C, 0x71D1_0367, 0x703D_54D8, 0xA04B_4904), 0, 0x6463_6261, 0xF429_2244, 6,
             Four(0xA04B_4904, 0xFC32_DD6E, 0x71D1_0367, 0x703D_54D8));
  }

  lemma Steps50()
    ensures Rounds(START, BLOCK, 50) == StateOf(Four(0x703D_54D8, 0x6545_6B34, 0xFC32_DD6E, 0x71D1_0367))
  {
    hide Rounds, StateOf, Load, Of;
    Steps49();
    Words3();
    NextStep(49, Four(0xA04B_4904, 0xFC32_DD6E, 0x71D1_0367, 0x703D_54D8), 7, 0x0, 0x432A_FF97, 10,
             Four(0x703D_54D8, 0x6545_6B34, 0xFC32_DD6E, 0x71D1_0367));
  }

  lemma Steps51()
    ensures Rounds(START, BLOCK, 51) == StateOf(Four(0x71D1_0367, 0xB356_02CB, 0x6545_6B34, 0xFC32_DD6E))
  {
    hide Rounds, StateOf, Load, Of;
    Steps50();
    Words7();
    NextStep(50, Four(0x703D_54D8, 0x6545_6B34, 0xFC32_DD6E, 0x71D1_0367), 14, 0xD0, 0xAB94_23A7, 15,
             Four(0x71D1_0367, 0xB356_02CB, 0x6545_6B34, 0xFC32_DD6E));
  }

  lemma Steps52()
    ensures Rounds(START, BLOCK, 52) == StateOf(Four(0xFC32_DD6E, 0x33ED_B197, 0xB356_02CB, 0x6545_6B34))
  {
    hide Rounds, StateOf, Load, Of;
    Steps51();
    Words2();
    NextStep(51, Four(0x71D1_0367, 0xB356_02CB, 0x6545_6B34, 0xFC32_DD6E), 5, 0x7877_7675, 0xFC93_A039, 21,
             Four(0xFC32_DD6E, 0x33ED_B197, 0xB356_02CB, 0x6545_6B34));
  }

  lemma Steps53()
    ensures Rounds(START, BLOCK, 53) == StateOf(Four(0x6545_6B34, 0xC1E9_42F1, 0x33ED_B197, 0xB356_02CB))
  {
    hide Rounds, StateOf, Load, Of;
    Steps52();
    Words6();
    NextStep(52, Four(0xFC32_DD6E, 0x33ED_B197, 0xB356_02CB, 0x6545_6B34), 12, 0x0, 0x655B_59C3, 6,
             Four(0x6545_6B34, 0xC1E9_42F1, 0x33ED_B197, 0xB356_02CB));
  }

  lemma Steps54()
    ensures Rounds(START, BLOCK, 54) == StateOf(Four(0xB356_02CB, 0xD9BB_987C, 0xC1E9_42F1, 0x33ED_B197))
  {
    hide Rounds, StateOf, Load, Of;
    Steps53();
    Words1();
    NextStep(53, Four(0x6545_6B34, 0xC1E9_42F1, 0x33ED_B197, 0xB356_02CB), 3, 0x706F_6E6D, 0x8F0C_CC92, 10,
             Four(0xB356_02CB, 0xD9BB_987C, 0xC1E9_42F1, 0x33ED_B197));
  }

  lemma Steps55()
    ensures Rounds(START, BLOCK, 55) == StateOf(Four(0x33ED_B197, 0x23A6_8048, 0xD9BB_987C, 0xC1E9_42F1))
  {
    hide Rounds, StateOf, Load, Of;
    Steps54();
    Words5();
    NextStep(54, Four(0xB356_02CB, 0xD9BB_987C, 0xC1E9_42F1, 0x33ED_B197), 10, 0x0, 0xFFEF_F47D, 15,
             Four(0x33ED_B197, 0x23A6_8048, 0xD9BB_987C, 0xC1E9_42F1));
  }

  lemma Steps56()
    ensures Rounds(START, BLOCK, 56) == StateOf(Four(0xC1E9_42F1, 0x8387_7D1B, 0x23A6_8048, 0xD9BB_987C))
  {
    hide Rounds, StateOf, Load, Of;
    Steps55();
    Words0();
    NextStep(55, Four(0x33ED_B197, 0x23A6_8048, 0xD9BB_987C, 0xC1E9_42F1), 1, 0x6867_6665, 0x8584_5DD1, 21,
             Four(0xC1E9_42F1, 0x8387_7D1B, 0x23A6_8048, 0xD9BB_987C));
  }

  lemma Steps57()
    ensures Rounds(START, BLOCK, 57) == StateOf(Four(0xD9BB_987C, 0x77_C208, 0x8387_7D1B, 0x23A6_8048))
  {
    hide Rounds, StateOf, Load, Of;
    Steps56();
    Words4();
    NextStep(56, Four(0xC1E9_42F1, 0x8387_7D1B, 0x23A6_8048, 0xD9BB_987C), 8, 0x0, 0x6FA8_7E4F, 6,
             Four(0xD9BB_987C, 0x77_C208, 0x8387_7D1B, 0x23A6_8048));
  }

  lemma Steps58()
    ensures Rounds(START, BLOCK, 58) == StateOf(Four(0x23A6_8048, 0x847F_C2E7, 0x77_C208, 0x8387_7D1B))
  {
    hide Rounds, StateOf, Load, Of;
    Steps57();
    Words7();
    NextStep(57, Four(0xD9BB_987C, 0x77_C208, 0x8387_7D1B, 0x23A6_8048), 15, 0x0, 0xFE2C_E6E0, 10,
             Four(0x23A6_8048, 0x847F_C2E7, 0x77_C208, 0x8387_7D1B));
  }

  lemma Steps59()
    ensures Rounds(START, BLOCK, 59) == StateOf(Four(0x8387_7D1B, 0xA3E2_247F, 0x847F_C2E7, 0x77_C208))
  {
    hide Rounds, StateOf, Load, Of;
    Steps58();
    Words3();
    NextStep(58, Four(0x23A6_8048, 0x847F_C2E7, 0x77_C208, 0x8387_7D1B), 6, 0x80_7A79, 0xA301_4314, 15,
             Four(0x8387_7D1B, 0xA3E2_247F, 0x847F_C2E7, 0x77_C208));
  }

  lemma Steps60()
    ensures Rounds(START, BLOCK, 60) == StateOf(Four(0x77_C208, 0x5E6B_C930, 0xA3E2_247F, 0x847F_C2E7))
  {
    hide Rounds, StateOf, Load, Of;
    Steps59();
    Words6();
    NextStep(59, Four(0x8387_7D1B, 0xA3E2_247F, 0x847F_C2E7, 0x77_C208), 13, 0x0, 0x4E08_11A1, 21,
             Four(0x77_C208, 0x5E6B_C930, 0xA3E2_247F, 0x847F_C2E7));
  }

  lemma Steps61()
    ensures Rounds(START, BLOCK, 61) == StateOf(Four(0x847F_C2E7, 0x708E_D9C2, 0x5E6B_C930, 0xA3E2_247F))
  {
    hide Rounds, StateOf, Load, Of;
    Steps60();
    Words2();
    NextStep(60, Four(0x77_C208, 0x5E6B_C930, 0xA3E2_247F, 0x847F_C2E7), 4, 0x7473_7271, 0xF753_7E82, 6,
             Four(0x847F_C2E7, 0x708E_D9C2, 0x5E6B_C930, 0xA3E2_247F));
  }

  lemma Steps62()
    ensures Rounds(START, BLOCK, 62) == StateOf(Four(0xA3E2_247F, 0x2BAF_1354, 0x708E_D9C2, 0x5E6B_C930))
  {
    hide Rounds, StateOf, Load, Of;
    Steps61();
    Words5();
    NextStep(61, Four(0x847F_C2E7, 0x708E_D9C2, 0x5E6B_C930, 0xA3E2_247F), 11, 0x0, 0xBD3A_F235, 10,
             Four(0xA3E2_247F, 0x2BAF_1354, 0x708E_D9C2, 0x5E6B_C930));
  }

  lemma Steps63()
    ensures Rounds(START, BLOCK, 63) == StateOf(Four(0x5E6B_C930, 0xD38F_1E7F, 0x2BAF_1354, 0x708E_D9C2))
  {
    hide Rounds, StateOf, Load, Of;
    Steps62();
    Words1();
    NextStep(62, Four(0xA3E2_247F, 0x2BAF_1354, 0x708E_D9C2, 0x5E6B_C930), 2, 0x6C6B_6A69, 0x2AD7_D2BB, 15,
             Four(0x5E6B_C930, 0xD38F_1E7F, 0x2BAF_1354, 0x708E_D9C2));
  }

  lemma Steps64()
    ensures Rounds(START, BLOCK, 64) == StateOf(Four(0x708E_D9C2, 0x1116_E6D8, 0xD38F_1E7F, 0x2BAF_1354))
  {
    hide Rounds, StateOf, Load, Of;
    Steps63();
    Words4();
    NextStep(63, Four(0x5E6B_C930, 0xD38F_1E7F, 0x2BAF_1354, 0x708E_D9C2), 9, 0x0, 0xEB86_D391, 21,
             Four(0x708E_D9C2, 0x1116_E6D8, 0xD38F_1E7F, 0x2BAF_1354));
  }

  // The digest.

  lemma CompressedWords()
    ensures Compress(START, BLOCK) == StateOf(Four(0xD7D3_FCC3, 0xE4_9261, 0x6C49_FB7D, 0x3BE1_67CA))
  {
    hide Rounds, Of, Add;
    Steps64();
    AddWords(0x708E_D9C2, 0x6745_2301);
    AddWords(0x1116_E6D8, 0xEFCD_AB89);
    AddWords(0xD38F_1E7F, 0x98BA_DCFE);
    AddWords(0x2BAF_1354, 0x1032_5476);
    assert Plus(0x708E_D9C2, 0x6745_2301) == 0xD7D3_FCC3;
    assert Plus(0x1116_E6D8, 0xEFCD_AB89) == 0xE4_9261;
    assert Plus(0xD38F_1E7F, 0x98BA_DCFE) == 0x6C49_FB7D;
    assert Plus(0x2BAF_1354, 0x1032_5476) == 0x3BE1_67CA;
  }

  lemma BytesOfWord(v: bv32, b0: byte, b1: byte, b2: byte, b3: byte)
    requires LowByte(b0, v) && LowByte(b1, v >> 8) && LowByte(b2, v >> 16) && LowByte(b3, v >> 24)
    ensures BytesOf(Of(v, 32)) == [b0, b1, b2, b3]
  {
    hide LowByte, Of, Bits8, ByteOf;
    ByteBits(b0, v);
    ByteBits(b1, v >> 8);
    ByteBits(b2, v >> 16);
    ByteBits(b3, v >> 24);
    FourBytes(v);
    var w := Of(v, 32);
    assert w[..8] == Bits8(b0) && w[8..16] == Bits8(b1) && w[16..24] == Bits8(b2) && w[24..] == Bits8(b3);
    ByteBack(b0);
    ByteBack(b1);
    ByteBack(b2);
    ByteBack(b3);
  }

  /** The digest of the letters of the alphabet is the one that the RFC gives. */
  lemma AlphabetDigest()
    ensures Digest(ALPHABET) == [
      0xC3, 0xFC, 0xD3, 0xD7, 0x61, 0x92, 0xE4, 0x0,
      0x7D, 0xFB, 0x49, 0x6C, 0xCA, 0x67, 0xE1, 0x3B]
  {
    hide Rounds, Compress, Of, BytesOf, LowByte;
    PaddedAlphabet();
    NextBlock(START, BLOCK);
    assert BLOCK[..64] == BLOCK && BLOCK[64..] == [];
    NoBlock(Compress(START, BLOCK));
    CompressedWords();
    DigestA();
    DigestB();
    DigestC();
    DigestD();
  }

  lemma DigestA()
    ensures BytesOf(Of(0xD7D3_FCC3, 32)) == [0xC3, 0xFC, 0xD3, 0xD7]
  {
    hide Of, BytesOf;
    BytesOfWord(0xD7D3_FCC3, 0xC3, 0xFC, 0xD3, 0xD7);
  }

  lemma DigestB()
    ensures BytesOf(Of(0xE4_9261, 32)) == [0x61, 0x92, 0xE4, 0x0]
  {
    hide Of, BytesOf;
    BytesOfWord(0xE4_9261, 0x61, 0x92, 0xE4, 0x0);
  }

  lemma DigestC()
    ensures BytesOf(Of(0x6C49_FB7D, 32)) == [0x7D, 0xFB, 0x49, 0x6C]
  {
    hide Of, BytesOf;
    BytesOfWord(0x6C49_FB7D, 0x7D, 0xFB, 0x49, 0x6C);
  }

  lemma DigestD()
    ensures BytesOf(Of(0x3BE1_67CA, 32)) == [0xCA, 0x67, 0xE1, 0x3B]
  {
    hide Of, BytesOf;
    BytesOfWord(0x3BE1_67CA, 0xCA, 0x67, 0xE1, 0x3B);
  }
}
