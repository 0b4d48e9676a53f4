// The three program commands a create ends with. Until the last of them, which sets the
// hash slot, every image the chip holds still reads as the old directory.
module Creation {
  import opened Bytes
  import opened Chip
  import opened Layout
  import opened Updates
  import opened Effects
  import opened Scan

  lemma LastHeld(img: Image, g: Geometry, dir: seq<Entry>)
    requires Committed(img, g, dir)
    ensures DataEnd(g, dir) <= |img|
    ensures dir != [] ==>
      && HoldsInfo(img, g, |dir| - 1, dir[|dir| - 1])
      && dir[|dir| - 1].StrEnd() <= g.DataBase()
  {
    if dir != [] {
      assert HoldsEntry(img, g, |dir| - 1, dir[|dir| - 1]);
    }
  }

  /** The ten bytes of an entry's info record. */
  function RecordOf(g: Geometry, e: Entry): (rec: seq<byte>)
    ensures |rec| == 10
  {
    Le32(e.address % U32) + Le32(e.length % U32) + Le16((e.strAt - g.StringBase()) / 4 % 0x1_0000)
  }

  lemma RecordReads(g: Geometry, e: Entry)
    requires e.address < U32 && e.length < U32
    requires g.StringBase() <= e.strAt && (e.strAt - g.StringBase()) / 4 < 0x1_0000
    ensures IsRecord(RecordOf(g, e), e.address, e.length, (e.strAt - g.StringBase()) / 4)
  {
  }

  function SlotOf(e: Entry): (slot: seq<byte>)
    ensures |slot| == 2 && Word16(slot, 0) == e.hash % 0x1_0000
  {
    Le16(e.hash % 0x1_0000)
  }

  lemma StringPlan(g: Geometry, dir: seq<Entry>, capacity: nat)
    requires Laid(g, dir, capacity)
    ensures g.StringBase() <= NamesEnd(g, dir) <= NextString(g, dir)
    ensures (NextString(g, dir) - g.StringBase()) / 4 < 0x1_0000
  {
    NextStringPast(g, dir, capacity);
  }

  lemma RecordPlan(g: Geometry, dir: seq<Entry>, name: Name, hash: nat, length: nat, align: nat)
    requires DataEnd(g, dir) < U32 && length < U32 && align < U32
    requires g.StringBase() <= NextString(g, dir) && (NextString(g, dir) - g.StringBase()) / 4 < 0x1_0000
    ensures var e, p := NewEntry(g, dir, name, hash, length, align), Place(DataEnd(g, dir), length, align);
      && e.strAt == NextString(g, dir)
      && RecordOf(g, e) == Le32(p.0) + Le32(p.1) + Le16((e.strAt - g.StringBase()) / 4)
  {
    hide Place, NextString, RecordOf;
    RecordFits(g, NewEntry(g, dir, name, hash, length, align));
  }

  lemma RecordFits(g: Geometry, e: Entry)
    requires e.address < U32 && e.length < U32
    requires g.StringBase() <= e.strAt && (e.strAt - g.StringBase()) / 4 < 0x1_0000
    ensures RecordOf(g, e) == Le32(e.address) + Le32(e.length) + Le16((e.strAt - g.StringBase()) / 4)
  {
    hide Le32, Le16;
    SmallRest(e.address, U32);
    SmallRest(e.length, U32);
    SmallRest((e.strAt - g.StringBase()) / 4, 0x1_0000);
  }

  lemma SmallRest(x: nat, size: nat)
    requires x < size
    ensures x % size == x
  {
  }

  lemma LaidFits(g: Geometry, dir: seq<Entry>, capacity: nat)
    requires Laid(g, dir, capacity)
    ensures g.Fits(capacity)
  {
  }

  /** Where the new entry goes and the info record it gets, if there is space for it. */
  method Plan(chip: Chip, ghost g: Geometry, ghost dir: seq<Entry>, name: Name, ghost hash: nat,
              length: nat, align: nat, maxFiles: nat, stringSize: nat, index: nat)
    returns (r: bool, straddr: nat, rec: seq<byte>)
    requires chip.Valid() && Laid(g, dir, chip.cells.Length)
    requires maxFiles == g.maxFiles && stringSize == g.strings && index == |dir| < maxFiles
    requires dir != [] ==>
      && HoldsInfo(chip.cells[..], g, index - 1, dir[index - 1])
      && dir[index - 1].StrEnd() <= g.DataBase()
    requires length < U32 && align < U32 && DataEnd(g, dir) <= chip.cells.Length
    modifies chip`busy, chip`pending
    ensures chip.Valid()
    ensures r == Accepted(DataEnd(g, dir), length, align, chip.cells.Length)
    ensures r ==>
      var e := NewEntry(g, dir, name, hash, length, align);
      && straddr == e.strAt && rec == RecordOf(g, e)
      && (NoWrap(DataEnd(g, dir), length, align) ==>
            AsAsked(e, DataEnd(g, dir), NamesEnd(g, dir), name, length, align))
  {
    hide Laid, HoldsInfo, RecordOf, Place, NextString, Part.Capacity, Wrap, NoWrap, AsAsked;
    rec := [];
    LaidFits(g, dir, chip.cells.Length);
    if NoWrap(DataEnd(g, dir), length, align) {
      NewEntryAsAsked(g, dir, name, hash, length, align, chip.cells.Length);
    }
    StringPlan(g, dir, chip.cells.Length);
    RecordPlan(g, dir, name, hash, length, align);
    var end;
    end, straddr := NextFree(chip, maxFiles, stringSize, index, g, dir);
    var place := Place(end, length, align);
    var id := chip.ReadId();
    r := Wrap(place.0 + place.1) <= id.Capacity();
    if r {
      rec := MakeRecord(place.0, place.1, (straddr - (8 + maxFiles * 12)) / 4);
    }
  }

  method MakeRecord(address: nat, length: nat, index: nat) returns (rec: seq<byte>)
    requires address < U32 && length < U32 && index < 0x1_0000
    ensures rec == Le32(address) + Le32(length) + Le16(index)
  {
    rec := Le32(address) + Le32(length) + Le16(index);
  }

  // What the three programs do to an image.

  /** No bit is asked for that is clear already, so programming stores just these bytes. */
  ghost predicate Takes(img: Image, at: nat, data: seq<byte>)
  {
    at + |data| <= |img| && forall k :: 0 <= k < |data| ==> And8(img[at + k], data[k]) == data[k]
  }

  lemma ProgramTaken(img: Image, at: nat, data: seq<byte>)
    requires at + |data| <= |img|
    ensures Stored(img, Programmed(img, at, data), at, data) <==> Takes(img, at, data)
  {
    var b := Programmed(img, at, data);
    assert forall k :: 0 <= k < |data| ==> b[at + k] == And8(img[at + k], data[k]);
  }

  lemma BlankTakes(img: Image, at: nat, data: seq<byte>)
    requires IsBlank(img, at, at + |data|)
    ensures Takes(img, at, data)
  {
    forall k | 0 <= k < |data|
      ensures And8(img[at + k], data[k]) == data[k]
    {
      AndBlank(data[k]);
    }
  }

  lemma SameTakes(a: Image, b: Image, lo: nat, hi: nat, at: nat, data: seq<byte>)
    requires SameOutside(a, b, lo, hi) && (at + |data| <= lo || hi <= at)
    ensures Takes(a, at, data) <==> Takes(b, at, data)
  {
    if at + |data| <= |a| {
      forall k | 0 <= k < |data|
        ensures And8(a[at + k], data[k]) == And8(b[at + k], data[k])
      {
      }
    }
  }

  /** Whether what is left behind where entry `n` goes takes its name and its record. */
  ghost predicate TakesNew(img: Image, g: Geometry, n: nat, e: Entry)
  {
    Takes(img, e.strAt, e.name + [0]) && Takes(img, g.InfoAt(n), RecordOf(g, e))
  }

  /** There is a place on the chip for all that the three programs write. */
  ghost predicate OnChip(img: Image, g: Geometry, n: nat, e: Entry)
  {
    n < g.maxFiles && g.Fits(|img|) && g.StringBase() <= e.strAt && e.StrEnd() <= |img|
  }

  ghost function Named(img: Image, e: Entry): (b: Image)
    requires e.StrEnd() <= |img|
    ensures |b| == |img|
  {
    Programmed(img, e.strAt, e.name + [0])
  }

  ghost function Recorded(img: Image, g: Geometry, n: nat, e: Entry): (b: Image)
    requires OnChip(img, g, n, e)
    ensures |b| == |img|
  {
    Programmed(img, g.InfoAt(n), RecordOf(g, e))
  }

  ghost function Slotted(img: Image, g: Geometry, n: nat, e: Entry): Image
    requires OnChip(img, g, n, e)
  {
    Programmed(img, g.HashAt(n), SlotOf(e))
  }

  /** All three, in their order. */
  ghost function Written(img: Image, g: Geometry, n: nat, e: Entry): (b: Image)
    requires OnChip(img, g, n, e)
    ensures |b| == |img|
  {
    Slotted(Recorded(Named(img, e), g, n, e), g, n, e)
  }

  /** Bytes that belong to no committed entry can change without the directory noticing. */
  lemma UnusedChanged(a: Image, b: Image, g: Geometry, dir: seq<Entry>, lo: nat, hi: nat)
    requires Committed(a, g, dir) && SameOutside(a, b, lo, hi)
    requires NamesEnd(g, dir) <= lo || (g.InfoAt(|dir|) <= lo && hi <= g.StringBase())
    ensures Committed(b, g, dir)
  {
    DataEndInside(g, dir, |a|);
    assert g.InfoAt(|dir|) <= g.StringBase() <= NamesEnd(g, dir);
    CommittedFrame(a, b, g, dir);
  }

  lemma UnusedSteps(a: Image, before: seq<Image>, after: seq<Image>, g: Geometry, dir: seq<Entry>, lo: nat, hi: nat)
    requires Committed(a, g, dir) && before <= after
    requires forall j :: |before| <= j < |after| ==> SameOutside(a, after[j], lo, hi)
    requires NamesEnd(g, dir) <= lo || (g.InfoAt(|dir|) <= lo && hi <= g.StringBase())
    ensures StepsShow(before, after, g, dir)
  {
    forall j | |before| <= j < |after|
      ensures Committed(after[j], g, dir)
    {
      UnusedChanged(a, after[j], g, dir, lo, hi);
    }
  }

  lemma ProgramOutside(img: Image, at: nat, data: seq<byte>)
    requires at + |data| <= |img|
    ensures SameOutside(img, Programmed(img, at, data), at, at + |data|)
  {
  }

  lemma BlankSlot(a: Image, g: Geometry, dir: seq<Entry>)
    requires Committed(a, g, dir) && |dir| < g.maxFiles
    ensures IsBlank(a, g.HashAt(|dir|), g.HashAt(|dir|) + 2)
    ensures 2 <= PAGE - g.HashAt(|dir|) % PAGE
  {
    assert g.HashAt(|dir| + 1) <= g.HashAt(g.maxFiles);
  }

  /** Name and record keep the old directory, and hold the new entry if the chip takes them. */
  lemma Unseen(a: Image, g: Geometry, dir: seq<Entry>, e: Entry)
    requires Committed(a, g, dir) && Next(g, dir, e, |a|) && TakesNew(a, g, |dir|, e)
    ensures OnChip(a, g, |dir|, e)
    ensures var b := Recorded(Named(a, e), g, |dir|, e);
      Committed(b, g, dir) && HoldsInfo(b, g, |dir|, e)
  {
    hide Programmed, Committed, HoldsInfo, HoldsText, RecordOf, Takes;
    NextBounds(g, dir, e, |a|);
    var n, named := |dir|, Named(a, e);
    ProgramOutside(a, e.strAt, e.name + [0]);
    ProgramTaken(a, e.strAt, e.name + [0]);
    TextStored(a, named, e);
    UnusedChanged(a, named, g, dir, e.strAt, e.StrEnd());
    assert g.InfoAt(n) + 10 <= g.StringBase();
    SameTakes(a, named, e.strAt, e.StrEnd(), g.InfoAt(n), RecordOf(g, e));
    ProgramOutside(named, g.InfoAt(n), RecordOf(g, e));
    ProgramTaken(named, g.InfoAt(n), RecordOf(g, e));
    RecordReads(g, e);
    InfoStored(named, Recorded(named, g, n, e), g, dir, e, RecordOf(g, e));
    UnusedChanged(named, Recorded(named, g, n, e), g, dir, g.InfoAt(n), g.InfoAt(n) + 10);
  }

  /** If the chip takes name and record, the three programs leave the directory with the new entry. */
  lemma WrittenCommits(a: Image, g: Geometry, dir: seq<Entry>, e: Entry)
    requires Committed(a, g, dir) && Next(g, dir, e, |a|) && TakesNew(a, g, |dir|, e) && e.hash < 0x1_0000
    ensures OnChip(a, g, |dir|, e) && Committed(Written(a, g, |dir|, e), g, dir + [e])
  {
    hide Programmed, Committed, HoldsInfo, TakesNew, Next, Recorded, Named;
    Unseen(a, g, dir, e);
    OnChipStays(a, g, |dir|, e);
    var n, b := |dir|, Recorded(Named(a, e), g, |dir|, e);
    NextSlot(g, dir, e, |a|);
    BlankSlot(b, g, dir);
    ProgramBlank(b, g.HashAt(n), SlotOf(e));
    HashStored(b, Slotted(b, g, n, e), g, dir, e, SlotOf(e));
  }

  lemma NextSlot(g: Geometry, dir: seq<Entry>, e: Entry, capacity: nat)
    requires Next(g, dir, e, capacity)
    ensures |dir| < g.maxFiles && g.HashAt(|dir|) + 2 <= g.InfoAt(0) <= capacity
  {
  }

  lemma OnChipStays(a: Image, g: Geometry, n: nat, e: Entry)
    requires OnChip(a, g, n, e)
    ensures OnChip(Named(a, e), g, n, e) && OnChip(Recorded(Named(a, e), g, n, e), g, n, e)
    ensures |Recorded(Named(a, e), g, n, e)| == |a|
  {
  }

  // Back from what the three programs leave to what was there.

  lemma WrittenBytes(a: Image, g: Geometry, n: nat, e: Entry)
    requires OnChip(a, g, n, e)
    ensures var b := Written(a, g, n, e);
      && (forall k :: 0 <= k < |e.name| + 1 ==> b[e.strAt + k] == And8(a[e.strAt + k], (e.name + [0])[k]))
      && (forall k :: 0 <= k < 10 ==> b[g.InfoAt(n) + k] == And8(a[g.InfoAt(n) + k], RecordOf(g, e)[k]))
      && (forall i :: g.StringBase() <= i < |a| && !(e.strAt <= i < e.StrEnd()) ==> b[i] == a[i])
      && (forall i :: g.InfoAt(n) + 10 <= i < g.StringBase() ==> b[i] == a[i])
  {
    hide RecordOf, And8, Written, Named;
    AboveRecords(a, g, n, e);
    AboveSlots(a, g, n, e);
    NamedBytes(a, e);
    var b, named := Written(a, g, n, e), Named(a, e);
    assert forall i :: g.StringBase() <= i < |a| ==> b[i] == named[i];
  }

  lemma NamedBytes(a: Image, e: Entry)
    requires e.StrEnd() <= |a|
    ensures var named := Named(a, e);
      && (forall k :: 0 <= k < |e.name| + 1 ==> named[e.strAt + k] == And8(a[e.strAt + k], (e.name + [0])[k]))
      && (forall i :: 0 <= i < |a| && !(e.strAt <= i < e.StrEnd()) ==> named[i] == a[i])
  {
    hide And8;
  }

  /** Above the records, only the name is programmed. */
  lemma AboveRecords(a: Image, g: Geometry, n: nat, e: Entry)
    requires OnChip(a, g, n, e)
    ensures forall i :: g.StringBase() <= i < |a| ==> Written(a, g, n, e)[i] == Named(a, e)[i]
  {
    hide RecordOf, And8, Named;
    assert g.HashAt(n) + 2 <= g.InfoAt(n) && g.InfoAt(n) + 10 <= g.StringBase();
  }

  /** Between the slots and the names, only the record is. */
  lemma AboveSlots(a: Image, g: Geometry, n: nat, e: Entry)
    requires OnChip(a, g, n, e)
    ensures var b := Written(a, g, n, e);
      && (forall k :: 0 <= k < 10 ==> b[g.InfoAt(n) + k] == And8(a[g.InfoAt(n) + k], RecordOf(g, e)[k]))
      && (forall i :: g.InfoAt(n) + 10 <= i < g.StringBase() ==> b[i] == a[i])
  {
    hide RecordOf, And8;
    assert g.HashAt(n) + 2 <= g.InfoAt(n) && g.InfoAt(n) + 10 <= g.StringBase();
    var recorded := Recorded(Named(a, e), g, n, e);
    assert forall i :: g.InfoAt(n) <= i < |a| ==> Written(a, g, n, e)[i] == recorded[i];
  }

  lemma Word16Bytes(s: seq<byte>, t: seq<byte>, i: nat, j: nat)
    requires i + 2 <= |s| && j + 2 <= |t| && Word16(s, i) == Word16(t, j)
    ensures s[i] == t[j] && s[i + 1] == t[j + 1]
  {
  }

  lemma Word32Bytes(s: seq<byte>, t: seq<byte>, i: nat, j: nat)
    requires i + 4 <= |s| && j + 4 <= |t| && Word32(s, i) == Word32(t, j)
    ensures s[i] == t[j] && s[i + 1] == t[j + 1] && s[i + 2] == t[j + 2] && s[i + 3] == t[j + 3]
  {
    hide Word16;
    Word16Bytes(s, t, i, j);
    Word16Bytes(s, t, i + 2, j + 2);
  }

  /** The new directory can only be there if the chip took name and record. */
  lemma WrittenNeeds(a: Image, g: Geometry, dir: seq<Entry>, e: Entry)
    requires Next(g, dir, e, |a|) && OnChip(a, g, |dir|, e)
    requires Committed(Written(a, g, |dir|, e), g, dir + [e])
    ensures TakesNew(a, g, |dir|, e)
  {
    hide Written, Committed, RecordOf, And8, Next;
    var n, b, rec := |dir|, Written(a, g, |dir|, e), RecordOf(g, e);
    LastEntryHeld(b, g, dir, e);
    WrittenBytes(a, g, n, e);
    TextTaken(a, b, e);
    NextBounds(g, dir, e, |a|);
    RecordReads(g, e);
    assert g.InfoAt(n) + 10 <= g.StringBase();
    SameRecord(b, g.InfoAt(n), rec, e.address, e.length, (e.strAt - g.StringBase()) / 4);
  }

  lemma LastEntryHeld(b: Image, g: Geometry, dir: seq<Entry>, e: Entry)
    requires Committed(b, g, dir + [e])
    ensures |dir| < g.maxFiles && g.Fits(|b|) && HoldsInfo(b, g, |dir|, e)
  {
    assert (dir + [e])[|dir|] == e;
    assert HoldsEntry(b, g, |dir|, (dir + [e])[|dir|]);
  }

  lemma TextTaken(a: Image, b: Image, e: Entry)
    requires |a| == |b| && HoldsText(b, e.strAt, e.name)
    requires forall k :: 0 <= k < |e.name| + 1 ==>
      e.StrEnd() <= |a| && b[e.strAt + k] == And8(a[e.strAt + k], (e.name + [0])[k])
    ensures Takes(a, e.strAt, e.name + [0])
  {
    hide And8;
    assert 0 < |e.name| + 1;
    forall k | 0 <= k < |e.name| + 1
      ensures And8(a[e.strAt + k], (e.name + [0])[k]) == (e.name + [0])[k]
    {
      if k == |e.name| {
        AndZero(a[e.strAt + k]);
      }
    }
  }

  lemma SameRecord(b: Image, at: nat, rec: seq<byte>, address: nat, length: nat, index: nat)
    requires at + 10 <= |b| && IsRecord(rec, address, length, index)
    requires Word32(b, at) == address && Word32(b, at + 4) == length && Word16(b, at + 8) == index
    ensures forall k :: 0 <= k < 10 ==> b[at + k] == rec[k]
  {
    hide Word16, Word32;
    Word32Bytes(b, rec, at, 0);
    Word32Bytes(b, rec, at + 4, 4);
    Word16Bytes(b, rec, at + 8, 8);
    assert b[at + 0] == rec[0] && b[at + 1] == rec[1] && b[at + 2] == rec[2] && b[at + 3] == rec[3];
    assert b[at + 4] == rec[4] && b[at + 5] == rec[5] && b[at + 6] == rec[6] && b[at + 7] == rec[7];
    assert b[at + 8] == rec[8] && b[at + 9] == rec[9];
  }

  /** A create that passes all checks leaves the directory with the new entry, as long as was asked
      for, if and only if the caller saw to room for the name and to sums that do not wrap, and the
      chip takes what is programmed. */
  lemma CreatedExactly(a: Image, g: Geometry, dir: seq<Entry>, name: Name, length: nat, align: nat)
    requires Committed(a, g, dir) && |dir| < g.maxFiles && Find(dir, name) < 0
    requires DataEnd(g, dir) <= |a| < U32 && length < U32 && align < U32
    requires Accepted(DataEnd(g, dir), length, align, |a|)
    requires OnChip(a, g, |dir|, NewEntry(g, dir, name, FilenameHash(name), length, align))
    ensures var e := NewEntry(g, dir, name, FilenameHash(name), length, align);
      (Committed(Written(a, g, |dir|, e), g, dir + [e]) && length <= e.length)
      <==> (Roomy(g, dir, name, length, align) && TakesNew(a, g, |dir|, e))
  {
    hide Written, TakesNew, Roomy, Accepted, NewEntry, DataEnd, OnChip;
    var e := NewEntry(g, dir, name, FilenameHash(name), length, align);
    LaidExactly(g, dir, name, FilenameHash(name), length, align, |a|);
    NamedAs(g, dir, name, FilenameHash(name), length, align);
    if Roomy(g, dir, name, length, align) {
      NewEntryNext(g, dir, name, FilenameHash(name), length, align, |a|);
      if TakesNew(a, g, |dir|, e) {
        WrittenCommits(a, g, dir, e);
      } else if Committed(Written(a, g, |dir|, e), g, dir + [e]) {
        WrittenNeeds(a, g, dir, e);
      }
    }
  }

  lemma NamedAs(g: Geometry, dir: seq<Entry>, name: Name, hash: nat, length: nat, align: nat)
    requires DataEnd(g, dir) < U32 && length < U32 && align < U32
    ensures var e := NewEntry(g, dir, name, hash, length, align);
      e.name == name && e.hash == hash && e.live && e.strAt == NextString(g, dir)
  {
  }

  // What the new directory means.

  /** An entry with which the directory is laid out comes next. */
  lemma NextBack(g: Geometry, dir: seq<Entry>, e: Entry, capacity: nat)
    requires Laid(g, dir, capacity) && Laid(g, dir + [e], capacity) && e.live
    ensures Next(g, dir, e, capacity)
  {
    assert (dir + [e])[|dir|] == e && Placed(g, e, capacity);
    assert dir != [] ==> Before((dir + [e])[|dir| - 1], (dir + [e])[|dir|]);
    assert dir != [] ==> (dir + [e])[|dir| - 1] == dir[|dir| - 1];
  }

  /** The three programs touch no data. */
  lemma WrittenFiles(a: Image, g: Geometry, dir: seq<Entry>, e: Entry)
    requires Laid(g, dir, |a|) && Next(g, dir, e, |a|) && OnChip(a, g, |dir|, e)
    ensures var b := Written(a, g, |dir|, e);
      && InRange(a, dir) && InRange(b, dir + [e]) && e.DataEnd() <= |a|
      && Contents(b, e) == Contents(a, e)
      && Files(b, dir + [e]) == Files(a, dir)[e.name := Contents(a, e)]
  {
    hide Written, Laid, OnChip;
    var b := Written(a, g, |dir|, e);
    WrittenBytes(a, g, |dir|, e);
    DataKept(a, b, g, dir, e);
    FilesCreated(a, b, dir, e);
  }

  lemma DataKept(a: Image, b: Image, g: Geometry, dir: seq<Entry>, e: Entry)
    requires Laid(g, dir, |a|) && Next(g, dir, e, |a|) && |b| == |a|
    requires forall i :: g.StringBase() <= i < |a| && !(e.strAt <= i < e.StrEnd()) ==> b[i] == a[i]
    ensures InRange(a, dir) && InRange(b, dir) && InRange(b, dir + [e]) && e.DataEnd() <= |a|
    ensures forall i :: 0 <= i < |dir| ==> Contents(b, dir[i]) == Contents(a, dir[i])
    ensures Contents(b, e) == Contents(a, e)
  {
    NextBounds(g, dir, e, |a|);
    DataEndInside(g, dir, |a|);
    assert Agree(a, b, g.DataBase(), |a|);
    forall i | 0 <= i < |dir|
      ensures Contents(b, dir[i]) == Contents(a, dir[i])
    {
      ContentsFrame(a, b, dir[i]);
    }
    ContentsFrame(a, b, e);
  }

  /** Where everything was blank, the chip takes what is programmed, and the rest stays blank. */
  lemma WrittenSpare(a: Image, g: Geometry, dir: seq<Entry>, e: Entry)
    requires Laid(g, dir, |a|) && Spare(a, g, dir) && Next(g, dir, e, |a|)
    ensures TakesNew(a, g, |dir|, e) && OnChip(a, g, |dir|, e)
    ensures Spare(Written(a, g, |dir|, e), g, dir + [e])
    ensures e.DataEnd() <= |a| && Contents(a, e) == Blanks(e.length)
  {
    hide Written, RecordOf;
    NextBounds(g, dir, e, |a|);
    DataEndInside(g, dir, |a|);
    assert g.InfoAt(|dir|) + 10 == g.InfoAt(|dir| + 1) <= g.StringBase();
    BlankTakes(a, e.strAt, e.name + [0]);
    BlankTakes(a, g.InfoAt(|dir|), RecordOf(g, e));
    WrittenBytes(a, g, |dir|, e);
  }

  // The programs.

  method MakeSlot(name: Name) returns (slot: seq<byte>)
    ensures |slot| == 2 && slot == Le16(FilenameHash(name))
  {
    var hash := HashName(name);
    slot := Le16(hash);
  }

  /** What the programs that add an entry leave: the image they make of the old one, and a history
      that shows the old directory until the very last image. */
  ghost predicate Added(a: Image, b: Image, before: seq<Image>, after: seq<Image>,
                        g: Geometry, dir: seq<Entry>, e: Entry)
  {
    && OnChip(a, g, |dir|, e) && b == Written(a, g, |dir|, e)
    && |before| < |after| && StepsShow(before, after[..|after| - 1], g, dir)
  }

  /** One program of a range that no reader looks at. */
  method ProgramUnseen(chip: Chip, at: nat, data: seq<byte>, ghost g: Geometry, ghost dir: seq<Entry>)
    requires chip.Valid() && Committed(chip.cells[..], g, dir)
    requires data != [] && at + |data| <= chip.cells.Length
    requires NamesEnd(g, dir) <= at || (g.InfoAt(|dir|) <= at && at + |data| <= g.StringBase())
    modifies chip`busy, chip`pending, chip`history, chip.cells
    ensures chip.Valid() && Committed(chip.cells[..], g, dir)
    ensures chip.cells[..] == Programmed(old(chip.cells[..]), at, data)
    ensures StepsShow(old(chip.history), chip.history, g, dir)
  {
    hide Committed, Programmed;
    ghost var a := chip.cells[..];
    chip.Write(at, data);
    ProgramOutside(a, at, data);
    UnusedChanged(a, chip.cells[..], g, dir, at, at + |data|);
    UnusedSteps(a, old(chip.history), chip.history, g, dir, at, at + |data|);
  }

  /** The program of a hash slot, in one command. */
  method ProgramHash(chip: Chip, at: nat, slot: seq<byte>)
    requires chip.Valid() && |slot| == 2 && at + 2 <= chip.cells.Length && 2 <= PAGE - at % PAGE
    modifies chip`busy, chip`pending, chip`history, chip.cells
    ensures chip.Valid() && chip.cells[..] == Programmed(old(chip.cells[..]), at, slot)
    ensures chip.history == old(chip.history) + [chip.cells[..]]
  {
    chip.Write(at, slot);
  }

  lemma StepsJoin(h0: seq<Image>, h1: seq<Image>, h2: seq<Image>, g: Geometry, dir: seq<Entry>)
    requires StepsShow(h0, h1, g, dir) && (h2 == h1 || StepsShow(h1, h2, g, dir))
    ensures StepsShow(h0, h2, g, dir)
  {
    forall j | |h0| <= j < |h2|
      ensures Committed(h2[j], g, dir)
    {
      if j < |h1| {
        assert h2[j] == h1[j];
      }
    }
  }

  /** The programs that add an entry. Every image before the last of them still reads as the
      old directory, whatever was left behind where they write. */
  method AddEntry(chip: Chip, ghost g: Geometry, ghost dir: seq<Entry>, maxFiles: nat, index: nat,
                  straddr: nat, name: Name, rec: seq<byte>, ghost e: Entry)
    requires chip.Valid() && chip.die == 0
    requires Committed(chip.cells[..], g, dir) && OnChip(chip.cells[..], g, |dir|, e)
    requires NamesEnd(g, dir) <= e.strAt
    requires maxFiles == g.maxFiles && index == |dir| && e.hash == FilenameHash(name)
    requires straddr == e.strAt && name == e.name && rec == RecordOf(g, e)
    modifies chip, chip.cells
    ensures chip.Valid() && chip.die == 0
    ensures Added(old(chip.cells[..]), chip.cells[..], old(chip.history), chip.history, g, dir, e)
  {
    hide Committed, Programmed, RecordOf, StepsShow, FilenameHash;
    ghost var a, h0 := chip.cells[..], chip.history;
    OnChipStays(a, g, |dir|, e);
    InfoBounds(g, |dir|, |a|);
    ProgramUnseen(chip, straddr, name + [0], g, dir);
    ghost var h1 := chip.history;
    ProgramUnseen(chip, 8 + maxFiles * 2 + index * 10, rec, g, dir);
    StepsJoin(h0, h1, chip.history, g, dir);
    ghost var unseen := chip.history;
    BlankSlot(chip.cells[..], g, dir);
    WaitReady(chip);
    var slot := MakeSlot(name);
    ProgramHash(chip, 8 + index * 2, slot);
    assert chip.history[..|chip.history| - 1] == unseen;
    ghost var b, h := chip.cells[..], chip.history;
    StepsGrow(h0, unseen, g, dir);
    WaitReady(chip);
    assert chip.cells[..] == b && chip.history == h;
  }

  lemma InfoBounds(g: Geometry, n: nat, capacity: nat)
    requires g.Fits(capacity) && n < g.maxFiles
    ensures g.InfoAt(n) == 8 + g.maxFiles * 2 + n * 10 && g.InfoAt(n) + 10 <= g.StringBase() <= capacity
    ensures g.HashAt(n) == 8 + n * 2 && g.HashAt(n) + 2 <= g.InfoAt(0) <= capacity
  {
  }

  lemma StepsGrow(before: seq<Image>, after: seq<Image>, g: Geometry, dir: seq<Entry>)
    requires StepsShow(before, after, g, dir)
    ensures |before| <= |after|
  {
  }
}
