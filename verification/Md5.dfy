// The streaming digest: bytes are buffered until they fill a block, and the number of them is
// kept in two counters of 29 and 32 bits.
module Md5 {
  import opened Bytes
  import opened Registers
  import opened Md5Digest

  // The forms of the auxiliary functions that do without AND-NOT, and the rotation as two shifts.

  function FastE(x: Word, y: Word, z: Word): Word
  {
    Xor(z, And(x, Xor(y, z)))
  }

  function FastG(x: Word, y: Word, z: Word): Word
  {
    Xor(y, And(z, Xor(x, y)))
  }

  function ShiftUp(x: Word, n: nat): Word
    requires n <= 32
  {
    Zeros(n) + x[..32 - n]
  }

  function ShiftDown(x: Word, n: nat): Word
    requires n <= 32
  {
    x[n..] + Zeros(n)
  }

  lemma FastFormsAgree(x: Word, y: Word, z: Word)
    ensures FastE(x, y, z) == F(x, y, z) && FastG(x, y, z) == G(x, y, z)
  {
  }

  lemma ShiftsRotate(x: Word, s: nat)
    requires s <= 32
    ensures Or(ShiftUp(x, s), ShiftDown(x, 32 - s)) == RotateLeft(x, s)
  {
  }

  // The steps as they are written out: which word of the block, and how far to turn.

  const WORDS1: seq<nat> := [0, 1, 2, 3, 4, 5, 6, 7, 8, 9, 10, 11, 12, 13, 14, 15]
  const TURNS1: seq<nat> := [7, 12, 17, 22, 7, 12, 17, 22, 7, 12, 17, 22, 7, 12, 17, 22]
  const WORDS2: seq<nat> := [1, 6, 11, 0, 5, 10, 15, 4, 9, 14, 3, 8, 13, 2, 7, 12]
  const TURNS2: seq<nat> := [5, 9, 14, 20, 5, 9, 14, 20, 5, 9, 14, 20, 5, 9, 14, 20]
  const WORDS3: seq<nat> := [5, 8, 11, 14, 1, 4, 7, 10, 13, 0, 3, 6, 9, 12, 15, 2]
  const TURNS3: seq<nat> := [4, 11, 16, 23, 4, 11, 16, 23, 4, 11, 16, 23, 4, 11, 16, 23]
  const WORDS4: seq<nat> := [0, 7, 14, 5, 12, 3, 10, 1, 8, 15, 6, 13, 4, 11, 2, 9]
  const TURNS4: seq<nat> := [6, 10, 15, 21, 6, 10, 15, 21, 6, 10, 15, 21, 6, 10, 15, 21]

  function WordAt(i: nat): nat
    requires i < 64
  {
    if i < 16 then WORDS1[i] else if i < 32 then WORDS2[i - 16]
    else if i < 48 then WORDS3[i - 32] else WORDS4[i - 48]
  }

  function TurnAt(i: nat): nat
    requires i < 64
  {
    if i < 16 then TURNS1[i] else if i < 32 then TURNS2[i - 16]
    else if i < 48 then TURNS3[i - 32] else TURNS4[i - 48]
  }

  /** They are the steps of the formulas. */
  lemma ScheduleAgrees(i: nat)
    requires i < 64
    ensures WordAt(i) == Pick(i) && TurnAt(i) == Turn(i)
  {
    if i < 16 {
      Round1Agrees(i);
    } else if i < 32 {
      Round2Agrees(i - 16);
    } else if i < 48 {
      Round3Agrees(i - 32);
    } else {
      Round4Agrees(i - 48);
    }
  }

  lemma Round1Agrees(i: nat)
    requires i < 16
    ensures WORDS1[i] == Pick(i) && TURNS1[i] == Turn(i)
  {
  }

  lemma Round2Agrees(i: nat)
    requires i < 16
    ensures WORDS2[i] == Pick(i + 16) && TURNS2[i] == Turn(i + 16)
  {
  }

  lemma Round3Agrees(i: nat)
    requires i < 16
    ensures WORDS3[i] == Pick(i + 32) && TURNS3[i] == Turn(i + 32)
  {
  }

  lemma Round4Agrees(i: nat)
    requires i < 16
    ensures WORDS4[i] == Pick(i + 48) && TURNS4[i] == Turn(i + 48)
  {
  }

  // The counters.

  const LOW := 0x2000_0000
  const WIDTH := 0x1_0000_0000

  lemma DivMod(a: nat, q: nat, r: nat, m: nat)
    requires m > 0 && a == q * m + r && r < m
    ensures a / m == q && a % m == r
  {
    var e := a / m - q;
    assert m * e == r - a % m;
    assert e >= 1 ==> m * e >= m;
    assert e <= -1 ==> m * e <= -1 * m;
  }

  /** The carry out of the low counter shows as a value that got smaller. */
  lemma Counted(total: nat, size: nat)
    ensures var lo := (total % LOW + size) % LOW;
            var carry := if lo < total % LOW then 1 else 0;
            && lo == (total + size) % LOW
            && (total + size) / LOW == total / LOW + carry + size / LOW
  {
    var lo := total % LOW + size % LOW;
    var carry := if lo < LOW then 0 else 1;
    assert total == total / LOW * LOW + total % LOW && size == size / LOW * LOW + size % LOW;
    DivMod(total + size, total / LOW + size / LOW + carry, lo - carry * LOW, LOW);
    DivMod(total % LOW + size, size / LOW + carry, lo - carry * LOW, LOW);
  }

  /** Counting on from a counter that has wrapped. */
  lemma Wrapped(high: nat, carry: nat, more: nat)
    ensures (high % WIDTH + carry + more) % WIDTH == (high + carry + more) % WIDTH
    ensures ((high % WIDTH + carry) % WIDTH + more) % WIDTH == (high + carry + more) % WIDTH
  {
    ModAgain(high, carry + more);
    ModAgain(high % WIDTH + carry, more);
  }

  lemma ModAgain(x: nat, y: nat)
    ensures (x % WIDTH + y) % WIDTH == (x + y) % WIDTH
  {
    var q, z := x / WIDTH, x % WIDTH + y;
    DivMod(x + y, q + z / WIDTH, z % WIDTH, WIDTH);
  }

  lemma TailOfTotal(total: nat)
    ensures total % LOW % 64 == total % 64
  {
    var q, r := total / LOW, total % LOW;
    DivMod(total, q * (LOW / 64) + r / 64, r % 64, 64);
  }

  lemma LengthFields(message: seq<byte>, lo: nat, hi: nat)
    requires lo == |message| % LOW && hi == |message| / LOW % WIDTH
    ensures lo * 8 < WIDTH && BitLength(message) == Le32(lo * 8) + Le32(hi)
  {
    var n := |message|;
    var q := n / LOW;
    var bits := 8 * n % (WIDTH * WIDTH);
    assert n == q * LOW + lo && q == q / WIDTH * WIDTH + hi;
    assert 8 * n == (q / WIDTH) * (WIDTH * WIDTH) + (hi * WIDTH + lo * 8);
    DivMod(8 * n, q / WIDTH, hi * WIDTH + lo * 8, WIDTH * WIDTH);
    DivMod(bits, hi, lo * 8, WIDTH);
  }

  method Copy(buffer: array<byte>, at: nat, data: seq<byte>)
    requires at + |data| <= buffer.Length
    modifies buffer
    ensures buffer[..] == old(buffer[..at]) + data + old(buffer[at + |data|..])
  {
    forall i | 0 <= i < |data| {
      buffer[at + i] := data[i];
    }
  }

  // How a message splits into whole blocks and a tail.

  predicate Whole(n: nat)
  {
    n % 64 == 0
  }

  lemma WholeParts(n: nat)
    ensures n % 64 < 64 && Whole(n - n % 64)
  {
    var q := n / 64;
    assert n - n % 64 == 64 * q;
  }

  lemma WholeSum(m: nat, n: nat)
    requires Whole(m) && Whole(n)
    ensures Whole(m + n)
  {
  }

  lemma WholeBlock()
    ensures Whole(64)
  {
  }

  lemma TailLength(m: nat, n: nat)
    requires Whole(m) && n < 64
    ensures (m + n) % 64 == n
  {
  }

  /** The message so far, as the blocks that went into the state and the tail in the buffer. */
  ghost predicate Holds(message: seq<byte>, s: State, whole: seq<byte>, tail: seq<byte>)
  {
    && message == whole + tail && Whole(|whole|) && |tail| < 64
    && s == Blocks(START, whole)
  }

  lemma Absorbed(s: State, whole: seq<byte>, more: seq<byte>)
    requires s == Blocks(START, whole) && Whole(|whole|)
    ensures Blocks(s, more) == Blocks(START, whole + more)
  {
    hide Blocks, Of;
    BlocksAppend(START, whole, more);
  }

  // The padding: one last block, or two when the tail leaves no room for the length.

  lemma OneLastBlock(message: seq<byte>, whole: seq<byte>, tail: seq<byte>)
    requires message == whole + tail && Whole(|whole|) && |tail| < 56
    ensures Padded(message) == whole + (tail + [0x80] + Zeroed(55 - |tail|) + BitLength(message))
  {
    hide BitLength;
    assert (55 - |message|) % 64 == 55 - |tail|;
  }

  lemma TwoLastBlocks(message: seq<byte>, whole: seq<byte>, tail: seq<byte>)
    requires message == whole + tail && Whole(|whole|) && 56 <= |tail| < 64
    ensures Padded(message) == whole + (tail + [0x80] + Zeroed(63 - |tail|)) + (Zeroed(56) + BitLength(message))
  {
    hide BitLength;
    assert (55 - |message|) % 64 == 119 - |tail|;
    assert Zeroed(119 - |tail|) == Zeroed(63 - |tail|) + Zeroed(56);
  }

  class Context {
    var lo: nat
    var hi: nat
    var a: Word
    var b: Word
    var c: Word
    var d: Word
    const buffer: array<byte>

    /** What has been hashed so far. */
    ghost var message: seq<byte>

    ghost function Now(): State
      reads this
    {
      State(a, b, c, d)
    }

    /** The counters hold the number of bytes, the buffer the ones that do not fill a block yet,
        and the state all the others. */
    ghost predicate Valid()
      reads this, buffer
    {
      var used := |message| % 64;
      && buffer.Length == 64
      && lo == |message| % LOW && hi == |message| / LOW % WIDTH
      && buffer[..used] == message[|message| - used..]
      && Now() == Blocks(START, message[..|message| - used])
    }

    lemma Settled(whole: seq<byte>, tail: seq<byte>)
      requires Holds(message, Now(), whole, tail) && buffer.Length == 64 && buffer[..|tail|] == tail
      requires lo == |message| % LOW && hi == |message| / LOW % WIDTH
      ensures Valid()
    {
      hide Blocks, Of, Whole;
      TailLength(|whole|, |tail|);
      assert message[..|whole|] == whole && message[|whole|..] == tail;
    }

    lemma Parts() returns (whole: seq<byte>, tail: seq<byte>)
      requires Valid()
      ensures Holds(message, Now(), whole, tail)
      ensures |tail| == |message| % 64 == lo % 64 && buffer[..|tail|] == tail
    {
      hide Blocks, Of, Whole;
      var used := |message| % 64;
      WholeParts(|message|);
      TailOfTotal(|message|);
      whole, tail := message[..|message| - used], message[|message| - used..];
    }

    constructor ()
      ensures Valid() && message == [] && fresh(buffer)
    {
      hide Blocks, Of;
      buffer := new byte[64](_ => 0);
      lo, hi := 0, 0;
      a, b, c, d := Of(0x67452301, 32), Of(0xefcdab89, 32), Of(0x98badcfe, 32), Of(0x10325476, 32);
      message := [];
      NoBlock(START);
    }

    /** `STEP`, on the words in their places; the source writes out the 64 steps and lets the
        names change places. */
    method Step(s: State, i: nat, x: Word) returns (r: State)
      requires i < 64
      ensures r == Operation(s, i, x)
    {
      hide Add, Turn, Pick, Sine, WordAt, TurnAt, Of, FastE, FastG, F, G, Or, ShiftUp, ShiftDown, RotateLeft;
      ScheduleAgrees(i);
      var turn := TurnAt(i);
      var f;
      if i < 16 {
        f := FastE(s.b, s.c, s.d);
      } else if i < 32 {
        f := FastG(s.b, s.c, s.d);
      } else if i < 48 {
        f := Xor(Xor(s.b, s.c), s.d);
      } else {
        f := Xor(s.c, Or(s.b, Not(s.d)));
      }
      FastFormsAgree(s.b, s.c, s.d);
      var sum := Add(Add(s.a, Add(f, x)), Of(Sine(i), 32));
      var turned := Or(ShiftUp(sum, turn), ShiftDown(sum, 32 - turn));
      ShiftsRotate(sum, turn);
      r := State(s.d, Add(s.b, turned), s.b, s.c);
    }

    /** One or more whole blocks. */
    method Body(data: seq<byte>)
      requires data != [] && Whole(|data|)
      modifies this`a, this`b, this`c, this`d
      ensures Now() == Blocks(old(Now()), data)
    {
      hide Blocks, Add, Operation, Load;
      var rest := data;
      while rest != []
        invariant |rest| % 64 == 0 && Blocks(Now(), rest) == Blocks(old(Now()), data)
        decreases |rest|
      {
        NextBlock(Now(), rest);
        Block(rest[..64]);
        rest := rest[64..];
      }
      NoBlock(Now());
    }

    method Block(block: seq<byte>)
      requires |block| == 64
      modifies this`a, this`b, this`c, this`d
      ensures Now() == Compress(old(Now()), block)
    {
      hide Add, Operation, Load, Pick, WordAt, TurnAt;
      var saved := State(a, b, c, d);
      var s := saved;
      for i := 0 to 64
        invariant s == Rounds(saved, block, i)
      {
        ScheduleAgrees(i);
        s := Step(s, i, Load(block, 4 * WordAt(i)));
      }
      a, b, c, d := Add(s.a, saved.a), Add(s.b, saved.b), Add(s.c, saved.c), Add(s.d, saved.d);
    }

    method Update(data: seq<byte>)
      requires Valid()
      modifies this, buffer
      ensures Valid() && message == old(message) + data
    {
      hide Blocks, Of, Whole;
      ghost var whole, tail := Parts();
      var used := lo % 64;
      Count(|data|);
      message := message + data;
      if used == 0 {
        Bulk(data, whole);
        return;
      }
      var free := 64 - used;
      if |data| < free {
        Copy(buffer, used, data);
        Settled(whole, tail + data);
        return;
      }
      Copy(buffer, used, data[..free]);
      assert buffer[..] == tail + data[..free];
      Absorb(whole);
      Bulk(data[free..], whole + buffer[..]);
    }

    /** The part of `Update` that starts with an empty buffer. */
    method Bulk(data: seq<byte>, ghost before: seq<byte>)
      requires message == before + data && Whole(|before|) && Now() == Blocks(START, before)
      requires buffer.Length == 64 && lo == |message| % LOW && hi == |message| / LOW % WIDTH
      modifies this`a, this`b, this`c, this`d, buffer
      ensures Valid()
    {
      hide Blocks, Of, Whole;
      ghost var whole, state := before, Now();
      var rest := data;
      if |data| >= 64 {
        var n := |data| - |data| % 64;
        WholeParts(|data|);
        Body(data[..n]);
        Absorbed(state, before, data[..n]);
        WholeSum(|before|, n);
        whole, rest := before + data[..n], data[n..];
      }
      Copy(buffer, 0, rest);
      Settled(whole, rest);
    }

    /** The two counters take in `size` more bytes. */
    method Count(size: nat)
      requires lo == |message| % LOW && hi == |message| / LOW % WIDTH
      modifies this`lo, this`hi
      ensures lo == (|message| + size) % LOW && hi == (|message| + size) / LOW % WIDTH
    {
      var saved := lo;
      Counted(|message|, size);
      lo := (saved + size) % LOW;
      ghost var carry := if lo < saved then 1 else 0;
      Wrapped(|message| / LOW, carry, size / LOW);
      if lo < saved {
        hi := (hi + 1) % WIDTH;
      }
      hi := (hi + size / LOW) % WIDTH;
    }

    /** Zeros from `used` on, up to `end`. */
    method Clear(used: nat, end: nat)
      requires buffer.Length == 64 && used <= end <= 64
      modifies buffer
      ensures buffer[..] == old(buffer[..used]) + Zeroed(end - used) + old(buffer[end..])
    {
      Copy(buffer, used, Zeroed(end - used));
    }

    /** The block that carries the length. */
    method LastBlock(used: nat)
      requires buffer.Length == 64 && used <= 56 && lo * 8 < WIDTH && hi < WIDTH
      modifies buffer
      ensures buffer[..] == old(buffer[..used]) + Zeroed(56 - used) + (Le32(lo * 8) + Le32(hi))
    {
      hide Le32;
      Clear(used, 56);
      Copy(buffer, 56, Le32(lo * 8));
      Copy(buffer, 60, Le32(hi));
    }

    /** Takes the buffer in as a block. */
    method Absorb(ghost whole: seq<byte>)
      requires buffer.Length == 64 && Now() == Blocks(START, whole) && Whole(|whole|)
      modifies this`a, this`b, this`c, this`d
      ensures Now() == Blocks(START, whole + buffer[..]) && Whole(|whole + buffer[..]|)
    {
      hide Blocks, Of, Whole;
      ghost var state := Now();
      WholeBlock();
      Body(buffer[..]);
      Absorbed(state, whole, buffer[..]);
      WholeSum(|whole|, 64);
    }

    /** Pads and takes in what is left. */
    method Pad()
      requires Valid()
      modifies this`a, this`b, this`c, this`d, buffer
      ensures Now() == Blocks(START, Padded(message))
    {
      hide Blocks, Of, Whole, Padded, BitLength, Le32, Zeroed;
      ghost var whole, tail := Parts();
      LengthFields(message, lo, hi);
      var used := lo % 64;
      Copy(buffer, used, [0x80]);
      used := used + 1;
      assert buffer[..used] == tail + [0x80];
      if 64 - used < 8 {
        PadTwice(used, whole, tail);
      } else {
        LastBlock(used);
        Absorb(whole);
        OneLastBlock(message, whole, tail);
      }
    }

    /** No room for the length: it goes into a block of its own. */
    method PadTwice(used: nat, ghost whole: seq<byte>, ghost tail: seq<byte>)
      requires Holds(message, Now(), whole, tail) && buffer.Length == 64
      requires used == |tail| + 1 > 56 && buffer[..used] == tail + [0x80]
      requires lo * 8 < WIDTH && hi < WIDTH && BitLength(message) == Le32(lo * 8) + Le32(hi)
      modifies this`a, this`b, this`c, this`d, buffer
      ensures Now() == Blocks(START, Padded(message))
    {
      hide Blocks, Of, Whole, Padded, BitLength, Le32, Zeroed;
      TwoLastBlocks(message, whole, tail);
      Clear(used, 64);
      assert buffer[..] == tail + [0x80] + Zeroed(63 - |tail|);
      Absorb(whole);
      ghost var more := whole + buffer[..];
      LastBlock(0);
      assert buffer[..] == Zeroed(56) + BitLength(message);
      Absorb(more);
    }

    /** The digest of everything that came in; the context is cleared behind it. */
    method Final() returns (result: seq<byte>)
      requires Valid()
      modifies this, buffer
      ensures result == Digest(old(message))
      ensures lo == hi == 0 && buffer[..] == Zeroed(64) && Now() == State(Zeros(32), Zeros(32), Zeros(32), Zeros(32))
    {
      hide Blocks, Of, Padded, BytesOf, Zeroed;
      Pad();
      result := BytesOf(a) + BytesOf(b) + BytesOf(c) + BytesOf(d);
      assert result == Output(Now());
      Clear(0, 64);
      lo, hi := 0, 0;
      a, b, c, d := Zeros(32), Zeros(32), Zeros(32), Zeros(32);
    }
  }

  /** `make_hash`. */
  method MakeHash(data: seq<byte>) returns (hash: seq<byte>)
    ensures hash == Digest(data)
  {
    var context := new Context();
    context.Update(data);
    assert [] + data == data;
    hash := context.Final();
  }
}
