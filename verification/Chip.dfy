// The NOR flash chip behind the file store: program commands can only clear bits and stay
// inside one 256-byte page, erase commands work on whole blocks or dies, and reads must not
// cross the 32 MByte barrier of multi-die parts.
module Chip {
  import opened Bytes

  const PAGE := 256
  const DIE_BARRIER := 0x200_0000

  const ID0_SPANSION: byte := 0x01
  const ID0_MICRON: byte := 0x20
  const ID0_ADESTO: byte := 0x1F

  function Shift(n: nat): (r: nat)
    ensures r > 0
  {
    if n == 0 then 1 else 2 * Shift(n - 1)
  }

  /** The identification bytes a part answers with; everything else is derived from them. */
  datatype Part = Part(id0: byte, id1: byte, id2: byte, id4: byte)
  {
    predicate Present()
    {
      !(id0 == 0 && id1 == 0 && id2 == 0) && !(id0 == 255 && id1 == 255 && id2 == 255)
    }

    function Capacity(): nat
    {
      if id0 == ID0_ADESTO && id1 == 0x89 then 0x10_0000 * 16
      else if 16 <= id2 <= 31 then Shift(id2)
      else if 32 <= id2 <= 37 then Shift(id2 - 6)
      else if !Present() then 0
      else 0x10_0000
    }

    function BlockSize(): (r: nat)
      ensures r > 0 && r % PAGE == 0
    {
      if id0 == ID0_SPANSION && id4 == 0 then 0x4_0000 else 0x1_0000
    }

    /** The block that holds an address. */
    function BlockAt(addr: nat): (lo: nat)
      ensures lo <= addr < lo + BlockSize()
    {
      if BlockSize() == 0x4_0000 then addr - addr % 0x4_0000 else addr - addr % 0x1_0000
    }

    /** Reads must stop at the 32 MByte barrier. */
    predicate MultiDie()
    {
      id0 == ID0_MICRON && Capacity() > 0x100_0000
    }

    /** Parts that have no bulk erase and are erased one die at a time. */
    predicate Stacked()
    {
      id0 == ID0_MICRON && 0x20 <= id2 <= 0x22
    }

    function DieCount(): nat
    {
      if id2 == 0x21 then 4 else 2
    }

    function DieBytes(): nat
    {
      0x100_0000 * (if id2 == 0x22 then 8 else 2)
    }
  }

  /** The dies of a stacked part tile it exactly, so erasing each once erases everything. */
  lemma DiesTileTheChip(p: Part)
    requires p.Stacked()
    ensures p.DieCount() * p.DieBytes() == p.Capacity()
  {
    assert Shift(5) == 32;
    assert Shift(10) == 1024;
    assert Shift(15) == 32768;
    assert Shift(20) == 0x10_0000;
    assert Shift(25) == 0x200_0000;
    assert Shift(28) == 0x1000_0000;
  }

  /** The parts with a barrier are those of one maker with more than 16 MByte. */
  lemma BarrierParts(p: Part)
    ensures p.MultiDie() <==> p.id0 == 0x20 && 25 <= p.id2 <= 37
  {
    assert Shift(8) == 256 && Shift(16) == 0x1_0000;
    assert Shift(20) == 0x10_0000 && Shift(24) == 0x100_0000 && Shift(25) == 0x200_0000;
    if 16 <= p.id2 <= 31 {
      ShiftOrdered(p.id2, 24);
      ShiftOrdered(25, p.id2);
    } else if 32 <= p.id2 <= 37 {
      ShiftOrdered(25, p.id2 - 6);
    }
  }

  lemma {:induction false} ShiftOrdered(a: nat, b: nat)
    ensures a <= b ==> Shift(a) <= Shift(b)
    decreases b
  {
    if a < b {
      ShiftOrdered(a, b - 1);
    }
  }

  type Image = seq<byte>

  /** The image after the bytes `data` were programmed at `addr`. */
  function Programmed(img: Image, addr: nat, data: seq<byte>): (r: Image)
    requires addr + |data| <= |img|
    ensures |r| == |img|
  {
    seq(|img|, i requires 0 <= i < |img| =>
      if addr <= i < addr + |data| then And8(img[i], data[i - addr]) else img[i])
  }

  /** The image after the range `lo..hi` was erased. */
  function Erased(img: Image, lo: nat, hi: nat): (r: Image)
    ensures |r| == |img|
  {
    seq(|img|, i requires 0 <= i < |img| => if lo <= i < hi then BLANK else img[i])
  }

  ghost predicate SameOutside(a: Image, b: Image, lo: nat, hi: nat)
  {
    |a| == |b| && forall i :: 0 <= i < |a| && !(lo <= i < hi) ==> a[i] == b[i]
  }

  ghost predicate IsBlank(img: Image, lo: nat, hi: nat)
  {
    hi <= |img| && forall i :: lo <= i < hi ==> img[i] == BLANK
  }

  /** `b` is `a` with exactly the bytes `data` at `addr`. */
  ghost predicate Stored(a: Image, b: Image, addr: nat, data: seq<byte>)
  {
    && addr + |data| <= |b|
    && SameOutside(a, b, addr, addr + |data|)
    && forall k :: 0 <= k < |data| ==> b[addr + k] == data[k]
  }

  /** Programming a range that is still blank stores exactly the bytes that were meant. */
  lemma ProgramBlank(img: Image, addr: nat, data: seq<byte>)
    requires addr + |data| <= |img|
    requires IsBlank(img, addr, addr + |data|)
    ensures Stored(img, Programmed(img, addr, data), addr, data)
  {
    forall i | 0 <= i < |data|
      ensures Programmed(img, addr, data)[addr + i] == data[i]
    {
      AndBlank(data[i]);
    }
  }

  /** Programming in two consecutive pieces is programming once. */
  lemma ProgramSplit(img: Image, addr: nat, data: seq<byte>, k: nat)
    requires addr + |data| <= |img| && k <= |data|
    ensures Programmed(Programmed(img, addr, data[..k]), addr + k, data[k..])
         == Programmed(img, addr, data)
  {
  }

  /** One more page of a range that is being programmed front to back. */
  lemma ProgramStep(img: Image, addr: nat, data: seq<byte>, done: nat, n: nat)
    requires addr + |data| <= |img| && done + n <= |data|
    ensures Programmed(Programmed(img, addr, data[..done]), addr + done, data[done..done + n])
         == Programmed(img, addr, data[..done + n])
    ensures SameOutside(img, Programmed(img, addr, data[..done + n]), addr, addr + |data|)
  {
    ProgramSplit(img, addr, data[..done + n], done);
    assert data[..done + n][..done] == data[..done];
    assert data[..done + n][done..] == data[done..done + n];
  }

  /** A command that ends before the next multiple of `size` does not cross it. */
  lemma StaysInside(at: nat, n: nat, size: nat)
    requires size > 0 && 1 <= n <= size - at % size
    ensures at / size == (at + n - 1) / size
  {
    var q, r := at / size, (at + n - 1) % size;
    assert at == q * size + at % size;
    var d := (at + n - 1) / size - q;
    assert d * size == at % size + n - 1 - r;
    assert d >= 1 ==> d * size >= size;
    assert d <= -1 ==> d * size <= -1 * size;
  }

  // Erasing a whole chip, among other calls.

  /** How many erase commands a whole chip takes, and how many bytes each covers. */
  function Erases(p: Part): nat
  {
    if p.Stacked() then p.DieCount() else 1
  }

  function EraseBytes(p: Part): nat
  {
    if p.Stacked() then p.DieBytes() else p.Capacity()
  }

  /** The first of them that an erase begins with, when the die index stands at `die`. */
  function FirstErased(p: Part, die: nat): nat
  {
    if !p.Stacked() then 0 else if die < p.DieCount() then die else p.DieCount()
  }

  /** The die index after so many dies, in two bits; a part that is not stacked has none. */
  function DieAfter(p: Part, erased: nat): nat
  {
    if p.Stacked() then erased % 4 else 0
  }

  /** The kind of operation in progress, the die index, the first die that no erase command has been
      given for, and what the chip holds. */
  datatype Progress = Progress(busy: nat, die: nat, erased: nat, image: Image)

  /** A call: a poll or a read, which find the command in progress over or not; one that only waits
      (`readID`, `readSerialNumber`, `sleep`); `begin`; and the two that start a command of their own. */
  datatype Request =
    | Poll(over: bool)
    | Look(over: bool)
    | Await
    | Restart
    | WriteOver(addr: nat, data: seq<byte>)
    | EraseOne(addr: nat)

  predicate Starts(r: Request)
  {
    r.WriteOver? || r.EraseOne?
  }

  predicate InsideChip(p: Part, r: Request)
  {
    match r
    case WriteOver(addr, data) => data != [] && addr + |data| <= p.Capacity()
    case EraseOne(addr) => p.BlockAt(addr) + p.BlockSize() <= p.Capacity()
    case _ => true
  }

  /** `eraseAll`, with nothing in progress. */
  function Begun(p: Part, die: nat, image: Image): Progress
  {
    if !p.Stacked() then Progress(3, 0, 1, Erased(image, 0, p.Capacity()))
    else if die < p.DieCount() then
      Progress(3, (die + 1) % 4, die + 1, Erased(image, die * p.DieBytes(), (die + 1) * p.DieBytes()))
    else Progress(0, 0, p.DieCount(), image)
  }

  /** A call that leaves the chip with nothing in progress although it did not ask for that. */
  predicate Quiets(s: Progress, r: Request)
  {
    s.busy != 0 && (r.Await? || r.Restart? || (r.Look? && (r.over || s.busy >= 3)))
  }

  function Continued(p: Part, s: Progress, r: Request): Progress
    requires |s.image| == p.Capacity() && InsideChip(p, r)
  {
    match r
    case Poll(over) =>
      if s.busy == 0 || !over then s
      else if s.die == 0 then s.(busy := 0)
      else Begun(p, s.die, s.image)
    case Look(_) => if Quiets(s, r) then s.(busy := 0) else s
    case Await => s.(busy := 0)
    case Restart => s.(busy := 0, die := 0)
    case WriteOver(addr, data) => s.(busy := 4, image := Programmed(s.image, addr, data))
    case EraseOne(addr) =>
      var lo := p.BlockAt(addr);
      s.(busy := 2, image := Erased(s.image, lo, lo + p.BlockSize()))
  }

  predicate SaysReady(s: Progress, r: Request)
  {
    r.Poll? && (s.busy == 0 || (r.over && s.die == 0))
  }

  /** An erase that began with the die index at `die`, after a run of calls. */
  function AfterAll(p: Part, die: nat, start: Image, requests: seq<Request>): (s: Progress)
    requires |start| == p.Capacity() && forall r :: r in requests ==> InsideChip(p, r)
    ensures |s.image| == p.Capacity()
  {
    if requests == [] then Begun(p, die, start)
    else
      var n := |requests| - 1;
      Continued(p, AfterAll(p, die, start, requests[..n]), requests[n])
  }

  /** No poll has said ready. */
  predicate StillWaits(p: Part, die: nat, start: Image, requests: seq<Request>)
    requires |start| == p.Capacity() && forall r :: r in requests ==> InsideChip(p, r)
  {
    requests == [] ||
    (var n := |requests| - 1;
     && StillWaits(p, die, start, requests[..n])
     && !SaysReady(AfterAll(p, die, start, requests[..n]), requests[n]))
  }

  /** `begin` has come before the last die was started, which makes the chip forget the others. */
  predicate Forgotten(p: Part, die: nat, start: Image, requests: seq<Request>)
    requires |start| == p.Capacity() && forall r :: r in requests ==> InsideChip(p, r)
  {
    requests != [] &&
    (var n := |requests| - 1;
     || Forgotten(p, die, start, requests[..n])
     || (requests[n].Restart? && AfterAll(p, die, start, requests[..n]).erased < Erases(p)))
  }

  /** A call that only waits, or a read, has come before the last die was started, and no command
      since that would make the polls go on. */
  predicate Halted(p: Part, die: nat, start: Image, requests: seq<Request>)
    requires |start| == p.Capacity() && forall r :: r in requests ==> InsideChip(p, r)
  {
    requests != [] &&
    (var n := |requests| - 1; var s := AfterAll(p, die, start, requests[..n]);
     && !Starts(requests[n])
     && (Halted(p, die, start, requests[..n]) || (Quiets(s, requests[n]) && s.erased < Erases(p))))
  }

  predicate CutShort(p: Part, die: nat, start: Image, requests: seq<Request>)
    requires |start| == p.Capacity() && forall r :: r in requests ==> InsideChip(p, r)
  {
    Halted(p, die, start, requests) || Forgotten(p, die, start, requests)
  }

  /** What an erase has come to before a poll says ready. */
  ghost predicate GoesOn(p: Part, s: Progress, halted: bool, forgotten: bool)
  {
    && s.die < 4 && (s.die > 0 ==> p.Stacked())
    && 0 < s.erased <= Erases(p)
    && (halted ==> s.busy == 0 && s.erased < Erases(p))
    && (forgotten ==> s.die == 0 && s.erased < Erases(p))
    && (!forgotten ==> s.die == DieAfter(p, s.erased) || (s.die == 0 && s.erased == Erases(p)))
    && (!halted && !forgotten && s.busy == 0 ==> s.erased == Erases(p))
  }

  lemma StepGoesOn(p: Part, s: Progress, halted: bool, forgotten: bool, r: Request)
    requires |s.image| == p.Capacity() && InsideChip(p, r)
    requires GoesOn(p, s, halted, forgotten) && !SaysReady(s, r)
    ensures GoesOn(p, Continued(p, s, r),
                   !Starts(r) && (halted || (Quiets(s, r) && s.erased < Erases(p))),
                   forgotten || (r.Restart? && s.erased < Erases(p)))
  {
    hide Erased, Programmed, Part.Capacity, Part.DieBytes;
  }

  lemma {:induction false} EraseGoesOn(p: Part, die: nat, start: Image, requests: seq<Request>)
    requires die < 4 && |start| == p.Capacity() && forall r :: r in requests ==> InsideChip(p, r)
    requires StillWaits(p, die, start, requests)
    ensures GoesOn(p, AfterAll(p, die, start, requests), Halted(p, die, start, requests),
                   Forgotten(p, die, start, requests))
  {
    hide GoesOn, Continued, SaysReady, InsideChip, Quiets;
    if requests == [] {
      BegunGoesOn(p, die, start);
    } else {
      var n := |requests| - 1;
      var shorter := requests[..n];
      assert forall r :: r in shorter ==> r in requests;
      EraseGoesOn(p, die, start, shorter);
      StepGoesOn(p, AfterAll(p, die, start, shorter), Halted(p, die, start, shorter),
                 Forgotten(p, die, start, shorter), requests[n]);
    }
  }

  lemma BegunGoesOn(p: Part, die: nat, start: Image)
    requires die < 4
    ensures GoesOn(p, Begun(p, die, start), false, false)
  {
    hide Erased;
  }

  /** When a poll first says ready, every die from the first one on has been given its erase command
      if and only if the erase was not cut short. */
  lemma ErasedWhenReady(p: Part, die: nat, start: Image, requests: seq<Request>, poll: Request)
    requires die < 4 && |start| == p.Capacity() && forall r :: r in requests ==> InsideChip(p, r)
    requires StillWaits(p, die, start, requests) && SaysReady(AfterAll(p, die, start, requests), poll)
    ensures AfterAll(p, die, start, requests).erased == Erases(p) <==> !CutShort(p, die, start, requests)
    ensures !p.Stacked() ==> !CutShort(p, die, start, requests)
  {
    hide AfterAll, StillWaits, Halted, Forgotten;
    EraseGoesOn(p, die, start, requests);
  }

  /** Without a command of another kind, the erase blanks a run of dies and changes nothing else. */
  lemma {:induction false} OnlyErased(p: Part, die: nat, start: Image, requests: seq<Request>)
    requires die < 4 && |start| == p.Capacity()
    requires forall r :: r in requests ==> InsideChip(p, r) && !Starts(r)
    requires StillWaits(p, die, start, requests)
    ensures var s := AfterAll(p, die, start, requests);
      && FirstErased(p, die) <= s.erased <= Erases(p)
      && s.image == Erased(start, FirstErased(p, die) * EraseBytes(p), s.erased * EraseBytes(p))
  {
    if requests == [] {
      BegunErased(p, die, start);
    } else {
      hide Continued, SaysReady, InsideChip, Erased;
      var n := |requests| - 1;
      var shorter := requests[..n];
      assert forall r :: r in shorter ==> r in requests;
      OnlyErased(p, die, start, shorter);
      EraseGoesOn(p, die, start, shorter);
      StepErased(p, FirstErased(p, die), start, AfterAll(p, die, start, shorter), requests[n],
                 Halted(p, die, start, shorter), Forgotten(p, die, start, shorter));
    }
  }

  lemma BegunErased(p: Part, die: nat, start: Image)
    requires |start| == p.Capacity()
    ensures var s := Begun(p, die, start);
      && FirstErased(p, die) <= s.erased <= Erases(p)
      && s.image == Erased(start, FirstErased(p, die) * EraseBytes(p), s.erased * EraseBytes(p))
  {
  }

  lemma StepErased(p: Part, first: nat, start: Image, s: Progress, r: Request, halted: bool, forgotten: bool)
    requires |start| == |s.image| == p.Capacity() && InsideChip(p, r) && !Starts(r)
    requires GoesOn(p, s, halted, forgotten) && first <= s.erased
    requires s.image == Erased(start, first * EraseBytes(p), s.erased * EraseBytes(p))
    ensures var t := Continued(p, s, r);
      && first <= t.erased <= Erases(p)
      && t.image == Erased(start, first * EraseBytes(p), t.erased * EraseBytes(p))
  {
    if r == Poll(true) && s.busy != 0 && 0 < s.die < p.DieCount() {
      assert s.die == s.erased;
      var size := p.DieBytes();
      TimesOrdered(first, s.die, size);
      TimesOrdered(s.die, s.die + 1, size);
      hide Part.DieBytes, Part.Capacity, Erased;
      ErasedNext(start, first * size, s.die * size, (s.die + 1) * size);
    }
  }

  lemma ErasedNext(start: Image, lo: nat, mid: nat, hi: nat)
    requires lo <= mid <= hi
    ensures Erased(Erased(start, lo, mid), mid, hi) == Erased(start, lo, hi)
  {
  }

  lemma KeptBelow(start: Image, lo: nat, hi: nat, i: nat)
    requires i < lo && i < |start|
    ensures Erased(start, lo, hi)[i] == start[i]
  {
  }

  /** When a poll first says ready and no command of another kind has come, the whole chip is blank if
      and only if everything below the first die was blank and everything above the last one that was
      reached; and all were reached if and only if the erase was not cut short. */
  lemma BlankWhenReady(p: Part, die: nat, start: Image, requests: seq<Request>, poll: Request)
    requires p.Present() && die < 4 && |start| == p.Capacity()
    requires forall r :: r in requests ==> InsideChip(p, r) && !Starts(r)
    requires StillWaits(p, die, start, requests) && SaysReady(AfterAll(p, die, start, requests), poll)
    ensures var s := AfterAll(p, die, start, requests);
      var below, above := FirstErased(p, die) * EraseBytes(p), s.erased * EraseBytes(p);
      && above <= p.Capacity() && (above == p.Capacity() <==> !CutShort(p, die, start, requests))
      && (IsBlank(s.image, 0, p.Capacity()) <==> IsBlank(start, 0, below) && IsBlank(start, above, p.Capacity()))
  {
    hide AfterAll, StillWaits, CutShort, SaysReady, IsBlank, Erased;
    CapacityPositive(p);
    OnlyErased(p, die, start, requests);
    ErasedWhenReady(p, die, start, requests, poll);
    var s := AfterAll(p, die, start, requests);
    DiesReach(p, s.erased);
    TimesOrdered(FirstErased(p, die), s.erased, EraseBytes(p));
    hide EraseBytes, FirstErased, Erases, Part.Capacity;
    BlankOutside(start, FirstErased(p, die) * EraseBytes(p), s.erased * EraseBytes(p));
  }

  lemma BlankOutside(start: Image, lo: nat, hi: nat)
    requires lo <= hi <= |start|
    ensures IsBlank(Erased(start, lo, hi), 0, |start|) <==> IsBlank(start, 0, lo) && IsBlank(start, hi, |start|)
  {
    var erased := Erased(start, lo, hi);
    if IsBlank(erased, 0, |start|) {
      forall i | 0 <= i < lo || hi <= i < |start|
        ensures start[i] == BLANK
      {
        assert erased[i] == start[i];
      }
    }
  }

  lemma CapacityPositive(p: Part)
    requires p.Present()
    ensures p.Capacity() > 0
  {
  }

  lemma DiesReach(p: Part, erased: nat)
    requires erased <= Erases(p) && p.Capacity() > 0
    ensures erased * EraseBytes(p) <= p.Capacity()
    ensures erased * EraseBytes(p) == p.Capacity() <==> erased == Erases(p)
  {
    if p.Stacked() {
      DiesTileTheChip(p);
      hide Part.Capacity;
      assert erased * p.DieBytes() + (p.DieCount() - erased) * p.DieBytes() == p.DieCount() * p.DieBytes();
      TimesOrdered(1, p.DieCount() - erased, p.DieBytes());
    } else {
      TimesOrdered(erased, 1, p.Capacity());
    }
  }

  lemma TimesOrdered(a: int, b: int, size: nat)
    ensures a <= b ==> a * size <= b * size
  {
    if a <= b {
      assert b * size - a * size == (b - a) * size;
    }
  }

  /** One read is enough for a stacked part to be called ready with one die erased. */
  lemma ReadCutsShort(p: Part, start: Image, over: bool)
    requires p.Stacked() && |start| == p.Capacity()
    ensures StillWaits(p, 0, start, [Look(over)]) && SaysReady(AfterAll(p, 0, start, [Look(over)]), Poll(over))
    ensures AfterAll(p, 0, start, [Look(over)]) == Progress(0, 1, 1, Erased(start, 0, p.DieBytes())) && 1 < Erases(p)
  {
    assert [Look(over)][..0] == [];
    assert AfterAll(p, 0, start, []) == Begun(p, 0, start);
  }

  /** How many dies have been erased, by the die index, when nothing but polls has come. */
  function Reached(p: Part, die: nat): nat
  {
    if die == 0 then Erases(p) else die
  }

  lemma BegunReaches(p: Part, die: nat, start: Image)
    requires die < 4 && |start| == p.Capacity()
    ensures var s := Begun(p, die, start);
      && s.die <= Erases(p) && (s.busy == 0 ==> s.die == 0)
      && FirstErased(p, die) <= Reached(p, s.die)
      && s.image == Erased(start, FirstErased(p, die) * EraseBytes(p), Reached(p, s.die) * EraseBytes(p))
  {
    BegunErased(p, die, start);
    assert Begun(p, die, start).erased == Reached(p, Begun(p, die, start).die);
  }

  lemma BegunAgain(p: Part, first: nat, die: nat, start: Image)
    requires die <= Erases(p) && first <= Reached(p, die) && |start| == p.Capacity()
    ensures die > 0 && p.Stacked() ==>
      var size := EraseBytes(p);
      var s := Begun(p, die, Erased(start, first * size, Reached(p, die) * size));
      && s.die <= Erases(p) && (s.busy == 0 ==> s.die == 0) && first <= Reached(p, s.die)
      && (s.busy != 0 ==> s.die == 0 || s.die == die + 1)
      && s.image == Erased(start, first * size, Reached(p, s.die) * size)
  {
    if 0 < die < p.DieCount() && p.Stacked() {
      var size := p.DieBytes();
      TimesOrdered(first, die, size);
      TimesOrdered(die, die + 1, size);
      hide Part.DieBytes, Part.Capacity, Erased;
      ErasedNext(start, first * size, die * size, (die + 1) * size);
    }
  }

  lemma BlankBelow(p: Part, first: nat, start: Image)
    requires |start| == p.Capacity() > 0 && first <= Erases(p)
    ensures Erases(p) * EraseBytes(p) == p.Capacity()
    ensures var below, now := first * EraseBytes(p), Erased(start, first * EraseBytes(p), p.Capacity());
      IsBlank(now, 0, p.Capacity()) <==> IsBlank(start, 0, below)
  {
    DiesReach(p, Erases(p));
    var below := first * EraseBytes(p);
    var now := Erased(start, below, p.Capacity());
    if IsBlank(now, 0, p.Capacity()) {
      forall i | 0 <= i < below
        ensures start[i] == BLANK
      {
        assert now[i] == BLANK;
      }
    }
  }

  /** A write makes the polls go on with an erase that was cut short, which takes with it what was
      written above the dies that were reached. */
  lemma WriteResumes(p: Part, start: Image, over: bool, addr: nat, data: seq<byte>)
    requires p.Stacked() && |start| == p.Capacity()
    requires InsideChip(p, WriteOver(addr, data)) && addr + |data| <= 2 * p.DieBytes()
    ensures var s := AfterAll(p, 0, start, [Look(over), WriteOver(addr, data), Poll(true)]);
      s.busy == 3 && s.erased == 2 && IsBlank(s.image, p.DieBytes(), 2 * p.DieBytes())
  {
    DiesTileTheChip(p);
    ReadCutsShort(p, start, over);
    var calls := [Look(over), WriteOver(addr, data), Poll(true)];
    assert calls[..2][..1] == [Look(over)] && calls[..2] == [Look(over), WriteOver(addr, data)];
    var s := AfterAll(p, 0, start, [Look(over)]);
    assert AfterAll(p, 0, start, calls[..2]) == s.(busy := 4, image := Programmed(s.image, addr, data));
  }

  /** A call to the chip. */
  datatype Call =
    | ReadBytes(addr: nat, len: nat)
    | AskReady
    | Identify
    | BeginAgain
    | WriteBytes(addr: nat, data: seq<byte>)
    | EraseAt(addr: nat)

  predicate Callable(p: Part, c: Call)
  {
    match c
    case ReadBytes(addr, len) => 1 <= len && addr + len <= p.Capacity()
    case WriteBytes(addr, data) => data != [] && addr + |data| <= p.Capacity()
    case EraseAt(addr) => p.BlockAt(addr) + p.BlockSize() <= p.Capacity()
    case _ => true
  }

  /** What a call is to an erase in progress; whether the command in progress is over is the chip's. */
  predicate IsRequest(c: Call, r: Request)
  {
    match c
    case ReadBytes(_, _) => r.Look?
    case AskReady => r.Poll?
    case Identify => r == Await
    case BeginAgain => r == Restart
    case WriteBytes(addr, data) => r == WriteOver(addr, data)
    case EraseAt(addr) => r == EraseOne(addr)
  }

  lemma NoneYet(p: Part, die: nat, start: Image)
    requires |start| == p.Capacity()
    ensures AfterAll(p, die, start, []) == Begun(p, die, start) && StillWaits(p, die, start, [])
  {
  }

  lemma OneMore(p: Part, die: nat, start: Image, requests: seq<Request>, r: Request)
    requires |start| == p.Capacity() && InsideChip(p, r) && forall q :: q in requests ==> InsideChip(p, q)
    requires StillWaits(p, die, start, requests)
    ensures var s, more := AfterAll(p, die, start, requests), requests + [r];
      && (forall q :: q in more ==> InsideChip(p, q))
      && more[..|more| - 1] == requests && AfterAll(p, die, start, more) == Continued(p, s, r)
      && (!SaysReady(s, r) ==> StillWaits(p, die, start, more))
  {
    hide InsideChip;
    assert (requests + [r])[..|requests|] == requests;
  }

  class Chip {
    const part: Part
    const cells: array<byte>

    var busy: nat      // 0 = ready, otherwise the kind of operation in progress
    var die: nat       // the top two flag bits: next die of a multi-die erase, 0 for none
    var pending: nat   // status polls until the operation in progress completes

    ghost var history: seq<Image>   // every image the chip has held, one per command

    ghost predicate Valid()
      reads this, cells
    {
      && part.Present()
      && cells.Length == part.Capacity()
      && die < 4
      && (die > 0 ==> part.Stacked())
      && history != [] && history[|history| - 1] == cells[..]
    }

    constructor (part: Part)
      requires part.Present()
      ensures Valid() && fresh(cells)
      ensures this.part == part && busy == 0 && die == 0
      ensures cells[..] == Blanks(part.Capacity())
    {
      this.part := part;
      busy, die, pending := 0, 0, 0;
      cells := new byte[part.Capacity()](_ => BLANK);
      new;
      history := [cells[..]];
    }

    /** One read command. */
    method ReadCommand(addr: nat, n: nat) returns (s: seq<byte>)
      requires 1 <= n && addr + n <= cells.Length
      requires part.id0 == 0x20 && part.Capacity() > 0x100_0000 ==> addr / 0x200_0000 == (addr + n - 1) / 0x200_0000
      ensures s == cells[addr..addr + n]
    {
      s := cells[addr..addr + n];
    }

    /** Reads `len` bytes; multi-die parts are read in one command per die. */
    method Read(addr: nat, len: nat) returns (buf: seq<byte>)
      requires Valid()
      requires 1 <= len && addr + len <= cells.Length
      modifies this`busy, this`pending
      ensures Valid()
      ensures buf == cells[addr..addr + len]
      ensures busy == if old(pending) == 0 || old(busy) >= 3 then 0 else old(busy)
      ensures busy != 0 ==> pending == old(pending)
    {
      if busy != 0 {
        if pending == 0 {
          busy := 0;
        } else if busy >= 3 {
          Wait();   // an operation that cannot be suspended
        }
      }
      buf := [];
      var at, left := addr, len;
      while left > 0
        invariant 0 <= left && at + left == addr + len && addr <= at
        invariant buf == cells[addr..at]
        invariant busy == if old(pending) == 0 || old(busy) >= 3 then 0 else old(busy)
        invariant busy != 0 ==> pending == old(pending)
      {
        var n := left;
        if part.MultiDie() {
          if at / DIE_BARRIER != (at + left - 1) / DIE_BARRIER {
            n := DIE_BARRIER - at % DIE_BARRIER;
            StaysInside(at, n, DIE_BARRIER);
          }
        }
        var s := ReadCommand(at, n);
        buf := buf + s;
        at, left := at + n, left - n;
      }
    }

    /** `readID`; `readSerialNumber` and `sleep` do the same to an operation in progress. */
    method ReadId() returns (id: Part)
      requires Valid()
      modifies this`busy, this`pending
      ensures Valid() && id == part && busy == 0
    {
      if busy != 0 {
        Wait();
      }
      id := part;
    }

    /** `begin` on a chip that was in use: it forgets the die index. */
    method Begin()
      requires Valid()
      modifies this`busy, this`pending, this`die
      ensures Valid() && busy == 0 && die == 0
    {
      var id := ReadId();
      die := 0;
    }

    method Wait()
      modifies this`busy, this`pending
      ensures busy == 0
    {
      busy, pending := 0, 0;
    }

    /** One page program command. */
    method ProgramPage(addr: nat, data: seq<byte>)
      requires Valid()
      requires 1 <= |data| && addr + |data| <= cells.Length
      requires addr / PAGE == (addr + |data| - 1) / PAGE
      modifies this`busy, this`pending, this`history, cells
      ensures Valid()
      ensures cells[..] == Programmed(old(cells[..]), addr, data) && busy == 4
      ensures history == old(history) + [cells[..]]
    {
      for k := 0 to |data|
        invariant forall i :: 0 <= i < cells.Length ==>
          cells[i] == if addr <= i < addr + k then And8(old(cells[i]), data[i - addr])
                      else old(cells[i])
        invariant history == old(history)
      {
        cells[addr + k] := And8(cells[addr + k], data[k]);
      }
      ghost var img := cells[..];
      assert img == Programmed(old(cells[..]), addr, data);
      busy, pending := 4, *;
      history := history + [img];
      assert cells[..] == img;
    }

    /** The next page of a range being programmed front to back, of which `done` bytes are in. */
    method WritePage(addr: nat, data: seq<byte>, done: nat, ghost start: Image) returns (n: nat)
      requires Valid()
      requires done < |data| && addr + |data| <= cells.Length == |start|
      requires cells[..] == Programmed(start, addr, data[..done])
      modifies this`busy, this`pending, this`history, cells
      ensures Valid()
      ensures 1 <= n && done + n <= |data|
      ensures n == |data| - done || n == PAGE - (addr + done) % PAGE
      ensures cells[..] == Programmed(start, addr, data[..done + n]) && busy == 4
      ensures history == old(history) + [cells[..]]
      ensures SameOutside(start, cells[..], addr, addr + |data|)
    {
      hide Programmed, SameOutside;
      if busy != 0 {
        Wait();
      }
      var max := PAGE - (addr + done) % PAGE;
      n := if |data| - done <= max then |data| - done else max;
      ProgramStep(start, addr, data, done, n);
      StaysInside(addr + done, n, PAGE);
      ProgramPage(addr + done, data[done..done + n]);
    }

    /** Programs any range, one command per page touched. */
    method Write(addr: nat, data: seq<byte>)
      requires Valid()
      requires 1 <= |data| && addr + |data| <= cells.Length
      modifies this`busy, this`pending, this`history, cells
      ensures Valid()
      ensures cells[..] == Programmed(old(cells[..]), addr, data) && busy == 4
      ensures old(history) < history
      ensures forall j :: |old(history)| <= j < |history| ==>
        SameOutside(old(cells[..]), history[j], addr, addr + |data|)
      ensures |data| <= PAGE - addr % PAGE ==> history == old(history) + [cells[..]]
    {
      var done := 0;
      ghost var start := cells[..];
      while done < |data|
        invariant Valid()
        invariant done <= |data|
        invariant cells[..] == Programmed(start, addr, data[..done]) && (done > 0 ==> busy == 4)
        invariant old(history) <= history && (done > 0 ==> old(history) < history)
        invariant forall j :: |old(history)| <= j < |history| ==>
          SameOutside(start, history[j], addr, addr + |data|)
        invariant |data| <= PAGE - addr % PAGE ==>
          || (done == 0 && history == old(history))
          || (done == |data| && history == old(history) + [cells[..]])
      {
        var n := WritePage(addr, data, done, start);
        done := done + n;
      }
      assert data[..done] == data;
    }

    /** Erases a range in one command; the image it leaves is logged. */
    method EraseRange(lo: nat, hi: nat)
      requires Valid()
      requires lo <= hi <= cells.Length
      modifies this`history, cells
      ensures Valid()
      ensures cells[..] == Erased(old(cells[..]), lo, hi)
      ensures history == old(history) + [cells[..]]
    {
      forall i | lo <= i < hi {
        cells[i] := BLANK;
      }
      ghost var img := cells[..];
      history := history + [img];
      assert cells[..] == img;
    }

    /** Erases the block that holds `addr`. */
    method EraseBlock(addr: nat)
      requires Valid()
      requires part.BlockAt(addr) + part.BlockSize() <= cells.Length
      modifies this`busy, this`pending, this`history, cells
      ensures Valid()
      ensures var lo := part.BlockAt(addr);
              cells[..] == Erased(old(cells[..]), lo, lo + part.BlockSize()) && busy == 2
      ensures history == old(history) + [cells[..]]
    {
      if busy != 0 {
        Wait();
      }
      hide Erased;
      var lo := part.BlockAt(addr);
      EraseRange(lo, lo + part.BlockSize());
      busy, pending := 2, *;
    }

    /** Starts erasing the chip, or the next die of a stacked part. */
    method EraseAll()
      requires Valid()
      modifies this, cells
      ensures Valid() && Erasing(Begun(part, old(die), old(cells[..])))
      ensures busy == 0 ==> history == old(history)
    {
      var id := ReadId();
      if id.Stacked() {
        DiesTileTheChip(part);
        var d := die;
        die := 0;
        if d >= part.DieCount() {
          return;
        }
        EraseRange(d * part.DieBytes(), (d + 1) * part.DieBytes());
        die := (d + 1) % 4;
      } else {
        EraseRange(0, cells.Length);
      }
      busy, pending := 3, *;
    }

    /** Where an erase has got to. */
    ghost predicate Erasing(s: Progress)
      reads this, cells
    {
      busy == s.busy && die == s.die && cells[..] == s.image
    }

    /** One status poll. Polling is also what moves a multi-die erase on to the next die. */
    method Ready() returns (r: bool)
      requires Valid()
      modifies this, cells
      ensures Valid()
      ensures r <==> old(busy) == 0 || (old(pending) == 0 && old(die) == 0)
      ensures r ==> busy == 0 && die == old(die) && cells[..] == old(cells[..]) && history == old(history)
      ensures old(busy) != 0 && old(pending) > 0 ==>
        && busy == old(busy) && die == old(die) && pending == old(pending) - 1
        && cells[..] == old(cells[..]) && history == old(history)
      ensures old(busy) != 0 && old(pending) == 0 && old(die) > 0 ==>
        Erasing(Begun(part, old(die), old(cells[..])))
    {
      if busy == 0 {
        return true;
      }
      if pending > 0 {
        pending := pending - 1;
        return false;
      }
      busy := 0;
      if die != 0 {
        EraseAll();
        return false;
      }
      return true;
    }

    /** Starting an erase and only polling until ready blanks all from the first die on. */
    method EraseWholeChip()
      requires Valid()
      modifies this, cells
      ensures Valid() && busy == 0 && die == 0
      ensures var below := FirstErased(part, old(die)) * EraseBytes(part);
        && cells[..] == Erased(old(cells[..]), below, cells.Length)
        && (IsBlank(cells[..], 0, cells.Length) <==> IsBlank(old(cells[..]), 0, below))
    {
      hide Begun, Erased, IsBlank;
      ghost var start, first := cells[..], FirstErased(part, die);
      BegunReaches(part, die, start);
      CapacityPositive(part);
      EraseAll();
      var r := false;
      while !r
        invariant Valid() && die <= Erases(part) && (r ==> busy == 0) && (busy == 0 ==> die == 0)
        invariant first <= Reached(part, die)
        invariant cells[..] == Erased(start, first * EraseBytes(part), Reached(part, die) * EraseBytes(part))
        decreases !r, if busy == 0 then 0 else if die == 0 then 1 else 6 - die, pending
      {
        BegunAgain(part, first, die, start);
        r := Ready();
      }
      BlankBelow(part, first, start);
    }

    /** The index that an erase leaves when it is cut short makes the next one begin there: on a stacked
        part the first die is passed over, and called ready although nothing but polls came. */
    method FirstDiePassedOver() returns (early: bool)
      requires Valid() && part.Stacked() && die == 0
      modifies this, cells
      ensures Valid() && early && busy == 0 && cells.Length > 0 && cells[0] == 0
    {
      hide Erased, Part.Capacity;
      DiesTileTheChip(part);
      ghost var start := cells[..];
      EraseAll();
      var bytes := Read(0, 1);
      early := Ready();
      AndZero(cells[0]);
      ghost var was := cells[..];
      Write(0, [0]);
      ghost var now := cells[..];
      assert now[0] == And8(was[0], 0);
      EraseWholeChip();
      KeptBelow(now, part.DieBytes(), cells.Length, 0);
      assert cells[..][0] == 0;
    }

    /** One call while a chip is being erased. */
    method Serve(call: Call, ghost s: Progress) returns (ready: bool, ghost r: Request)
      requires Valid() && Erasing(s) && Callable(part, call)
      modifies this, cells
      ensures IsRequest(call, r) && InsideChip(part, r)
      ensures Valid() && Erasing(Continued(part, s, r)) && ready == SaysReady(s, r)
    {
      hide Begun, Programmed, Erased;
      ready := false;
      match call
      case ReadBytes(addr, len) =>
        r := Look(pending == 0);
        var bytes := Read(addr, len);
      case AskReady =>
        r := Poll(pending == 0);
        ready := Ready();
      case Identify =>
        r := Await;
        var id := ReadId();
      case BeginAgain =>
        r := Restart;
        Begin();
      case WriteBytes(addr, data) =>
        r := WriteOver(addr, data);
        Write(addr, data);
      case EraseAt(addr) =>
        r := EraseOne(addr);
        EraseBlock(addr);
    }

    /** An erase of the whole chip among any other calls, up to the first poll that says ready: by then
        every die from the first one on has been given its erase command if and only if the erase was
        not cut short. */
    method EraseAmong(calls: seq<Call>) returns (ready: bool, ghost requests: seq<Request>)
      requires Valid() && forall c :: c in calls ==> Callable(part, c)
      modifies this, cells
      ensures |requests| <= |calls| && (forall i :: 0 <= i < |requests| ==> IsRequest(calls[i], requests[i]))
      ensures (forall r :: r in requests ==> InsideChip(part, r)) && old(die) < 4 && |old(cells[..])| == part.Capacity()
      ensures Valid() && Erasing(AfterAll(part, old(die), old(cells[..]), requests))
      ensures !ready ==> |requests| == |calls| && StillWaits(part, old(die), old(cells[..]), requests)
      ensures ready ==>
        && requests != []
        && var before, poll := requests[..|requests| - 1], requests[|requests| - 1];
           && (forall r :: r in before ==> InsideChip(part, r))
           && StillWaits(part, old(die), old(cells[..]), before)
           && SaysReady(AfterAll(part, old(die), old(cells[..]), before), poll)
    {
      hide Erasing, Begun, Continued, SaysReady, AfterAll, StillWaits, Callable, InsideChip, IsRequest;
      ghost var start, d := cells[..], die;
      EraseAll();
      ready, requests := false, [];
      NoneYet(part, d, start);
      var n := 0;
      while n < |calls| && !ready
        invariant Valid() && n == |requests| <= |calls|
        invariant forall i :: 0 <= i < n ==> IsRequest(calls[i], requests[i])
        invariant forall r :: r in requests ==> InsideChip(part, r)
        invariant Erasing(AfterAll(part, d, start, requests))
        invariant !ready ==> StillWaits(part, d, start, requests)
        invariant ready ==>
          && requests != []
          && var before, poll := requests[..|requests| - 1], requests[|requests| - 1];
             && (forall r :: r in before ==> InsideChip(part, r))
             && StillWaits(part, d, start, before)
             && SaysReady(AfterAll(part, d, start, before), poll)
      {
        ghost var r;
        ready, r := Serve(calls[n], AfterAll(part, d, start, requests));
        OneMore(part, d, start, requests, r);
        requests, n := requests + [r], n + 1;
      }
    }
  }
}
