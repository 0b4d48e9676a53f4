// The file store: opening, creating, removing and listing files by name, and reading,
// writing and erasing the bytes of an open file.
module Store {
  import opened Bytes
  import opened Chip
  import opened Layout
  import opened Updates
  import opened Effects
  import opened Scan
  import opened Creation

  /** Writing the header on a blank chip changes no file. */
  lemma HeaderWritten(a: Image, b: Image, g: Geometry, dir: seq<Entry>)
    requires Laid(g, dir, |a|) && SameOutside(a, b, 0, 8)
    ensures InRange(a, dir) && InRange(b, dir) && Files(b, dir) == Files(a, dir)
  {
    DirectoryChanged(a, b, g, dir, 0, 8);
    FilesFrame(a, b, dir);
  }

  /** Whether a create of this size succeeds. */
  ghost predicate Creatable(g: Geometry, dir: seq<Entry>, name: Name, length: nat, align: nat, capacity: nat)
    requires length < U32 && align < U32
  {
    && Find(dir, name) < 0 && |dir| < g.maxFiles
    && DataEnd(g, dir) < U32 && Accepted(DataEnd(g, dir), length, align, capacity)
  }

  /** The name's place is on the chip, if the create passes all checks. */
  ghost predicate NameOnChip(g: Geometry, dir: seq<Entry>, name: Name, length: nat, align: nat, capacity: nat)
    requires length < U32 && align < U32
  {
    Creatable(g, dir, name, length, align, capacity) ==> NextString(g, dir) + |name| + 1 <= capacity
  }

  /** The caller's side of a create that passes all checks: they do not cover the room for the name,
      nor a sum that wraps. */
  ghost predicate Affordable(g: Geometry, dir: seq<Entry>, name: Name, length: nat, align: nat, capacity: nat)
    requires length < U32 && align < U32
  {
    Creatable(g, dir, name, length, align, capacity) ==> Roomy(g, dir, name, length, align)
  }

  lemma SlotBounds(img: Image, g: Geometry, dir: seq<Entry>, i: nat)
    requires Committed(img, g, dir) && i < |dir|
    ensures g.HashAt(i) + 2 <= |img|
  {
  }

  /** Programming a slot with its own complement zeroes it. */
  lemma SlotCleared(a: Image, b: Image, at: nat, inverted: seq<byte>)
    requires at + 2 <= |a| && |inverted| == 2
    requires inverted[0] == Xor8(a[at], 255) && inverted[1] == Xor8(a[at + 1], 255)
    requires b == Programmed(a, at, inverted)
    ensures SameOutside(a, b, at, at + 2)
    ensures b[at] == 0 && b[at + 1] == 0 && Word16(b, at) == 0
  {
    AndInverted(a[at]);
    AndInverted(a[at + 1]);
  }

  /** What a removal leaves. */
  lemma RemovedEntry(a: Image, b: Image, g: Geometry, dir: seq<Entry>, i: nat)
    requires Formatted(a, g, dir) && i < |dir|
    requires SameOutside(a, b, g.HashAt(i), g.HashAt(i) + 2)
    requires g.HashAt(i) + 2 <= |b| && Word16(b, g.HashAt(i)) == 0
    ensures Formatted(b, g, Deleted(dir, i))
    ensures InRange(a, dir) && InRange(b, Deleted(dir, i))
    ensures Files(b, Deleted(dir, i)) ==
      if dir[i].live then Files(a, dir) - {dir[i].name} else Files(a, dir)
  {
    SlotZeroed(a, b, g, dir, i);
    SpareAfterDelete(a, b, g, dir, i);
    assert Hashed(Deleted(dir, i)) by {
      forall j | 0 <= j < |dir|
        ensures HashRight(Deleted(dir, i)[j])
      {
        assert HashRight(dir[j]);
      }
    }
    assert g.HashAt(i) + 2 <= g.InfoAt(0) <= g.DataBase();
    DirectoryChanged(a, b, g, dir, g.HashAt(i), g.HashAt(i) + 2);
    FilesFrame(a, b, dir);
    if dir[i].live {
      FilesRemoved(b, dir, i);
    } else {
      assert Deleted(dir, i) == dir;
    }
  }

  /** Whatever image a create was cut short at, the old directory opens from it. */
  lemma EveryImageOpens(before: seq<Image>, after: seq<Image>, g: Geometry, dir: seq<Entry>, j: nat)
    requires StepsShow(before, after, g, dir) && Hashed(dir)
    requires |before| <= j < |after|
    ensures Opens(after[j], g, dir)
  {
    assert Committed(after[j], g, dir);
  }

  lemma ValidLaid(img: Image, g: Geometry, dir: seq<Entry>)
    requires Formatted(img, g, dir) || Fresh(img, g, dir)
    ensures Laid(g, dir, |img|) && InRange(img, dir)
  {
  }

  /** What a create that passes all checks comes to. `start` is the chip before it, and `a` the one
      that may have been given a header since. */
  lemma CreateMeans(start: Image, a: Image, g: Geometry, dir: seq<Entry>, name: Name, length: nat, align: nat)
    requires Opens(a, g, dir) && SameOutside(start, a, 0, 8) && length < U32 && align < U32
    requires Creatable(g, dir, name, length, align, |a|) && NameOnChip(g, dir, name, length, align, |a|)
    ensures var e := NewEntry(g, dir, name, FilenameHash(name), length, align);
      && OnChip(a, g, |dir|, e)
      && var b := Written(a, g, |dir|, e);
         && ((Opens(b, g, dir + [e]) && length <= e.length)
             <==> (Roomy(g, dir, name, length, align) && TakesNew(start, g, |dir|, e)))
         && InRange(start, dir)
         && (Opens(b, g, dir + [e]) ==>
               && e.DataEnd() <= |a| && InRange(b, dir + [e])
               && Files(b, dir + [e]) == Files(start, dir)[name := Contents(start, e)])
         && (Formatted(a, g, dir) && Opens(b, g, dir + [e]) ==>
               Formatted(b, g, dir + [e]) && Contents(start, e) == Blanks(e.length))
         && (Formatted(a, g, dir) && Roomy(g, dir, name, length, align) ==> Opens(b, g, dir + [e]))
  {
    hide Committed, Files, Written, TakesNew, Roomy, Accepted, NewEntry, NextString, Spare, FilenameHash, InRange;
    var e := NewEntry(g, dir, name, FilenameHash(name), length, align);
    CommittedLaid(a, g, dir);
    StringPlan(g, dir, |a|);
    NamedAs(g, dir, name, FilenameHash(name), length, align);
    CreatedExactly(a, g, dir, name, length, align);
    var b := Written(a, g, |dir|, e);
    HeaderWritten(start, a, g, dir);
    TakesAside(start, a, g, |dir|, e);
    HashedMore(dir, e);
    if Opens(b, g, dir + [e]) {
      CommittedLaid(b, g, dir + [e]);
      NextBack(g, dir, e, |a|);
      WrittenFiles(a, g, dir, e);
      ContentsAside(start, a, g, dir, e);
      if Formatted(a, g, dir) {
        WrittenSpare(a, g, dir, e);
      }
    }
    if Formatted(a, g, dir) && Roomy(g, dir, name, length, align) {
      NewEntryNext(g, dir, name, FilenameHash(name), length, align, |a|);
      WrittenSpare(a, g, dir, e);
    }
  }

  lemma RoomyFits(g: Geometry, dir: seq<Entry>, name: Name, length: nat, align: nat)
    requires DataEnd(g, dir) < U32 && length < U32 && align < U32 && Roomy(g, dir, name, length, align)
    ensures NoWrap(DataEnd(g, dir), length, align)
  {
  }

  lemma EndOf(img: Image, g: Geometry, dir: seq<Entry>)
    requires Opens(img, g, dir) || Fresh(img, g, dir)
    ensures DataEnd(g, dir) <= |img| < U32
  {
    if Opens(img, g, dir) {
      CommittedLaid(img, g, dir);
    }
  }

  lemma AffordedRoom(g: Geometry, dir: seq<Entry>, name: Name, length: nat, align: nat, capacity: nat)
    requires length < U32 && align < U32 && Affordable(g, dir, name, length, align, capacity)
    ensures DataEnd(g, dir) < U32 && Creatable(g, dir, name, length, align, capacity) ==>
      Roomy(g, dir, name, length, align)
  {
  }

  /** A name for which there is room is on the chip. */
  lemma AffordedName(img: Image, g: Geometry, dir: seq<Entry>, name: Name, length: nat, align: nat)
    requires length < U32 && align < U32 && (Formatted(img, g, dir) || Fresh(img, g, dir))
    requires Affordable(g, dir, name, length, align, |img|)
    ensures NameOnChip(g, dir, name, length, align, |img|)
  {
  }

  lemma CommittedLaid(img: Image, g: Geometry, dir: seq<Entry>)
    requires Committed(img, g, dir)
    ensures Laid(g, dir, |img|) && g.Fits(|img|) && DataEnd(g, dir) <= |img| < U32 && NamesEnd(g, dir) >= g.StringBase()
  {
    DataEndInside(g, dir, |img|);
  }

  lemma TakesAside(start: Image, a: Image, g: Geometry, n: nat, e: Entry)
    requires SameOutside(start, a, 0, 8) && g.StringBase() <= e.strAt
    ensures TakesNew(start, g, n, e) <==> TakesNew(a, g, n, e)
  {
    SameTakes(start, a, 0, 8, e.strAt, e.name + [0]);
    SameTakes(start, a, 0, 8, g.InfoAt(n), RecordOf(g, e));
  }

  lemma ContentsAside(start: Image, a: Image, g: Geometry, dir: seq<Entry>, e: Entry)
    requires SameOutside(start, a, 0, 8) && Next(g, dir, e, |a|)
    ensures e.DataEnd() <= |a| && Contents(start, e) == Contents(a, e)
  {
    NextBounds(g, dir, e, |a|);
    ContentsFrame(start, a, e);
  }

  lemma HashedMore(dir: seq<Entry>, e: Entry)
    requires Hashed(dir) && HashRight(e)
    ensures Hashed(dir + [e])
  {
    forall i | 0 <= i < |dir + [e]|
      ensures HashRight((dir + [e])[i])
    {
      assert i < |dir| ==> HashRight(dir[i]);
    }
  }

  /** The programs of a removal. */
  method ZeroSlot(chip: Chip, index: nat, ghost g: Geometry, ghost dir: seq<Entry>) returns (r: bool)
    requires chip.Valid() && chip.die == 0 && Formatted(chip.cells[..], g, dir)
    requires index < |dir|
    modifies chip, chip.cells
    ensures r && chip.Valid() && chip.die == 0
    ensures Formatted(chip.cells[..], g, Deleted(dir, index))
    ensures InRange(old(chip.cells[..]), dir) && InRange(chip.cells[..], Deleted(dir, index))
    ensures Files(chip.cells[..], Deleted(dir, index)) ==
      if dir[index].live then Files(old(chip.cells[..]), dir) - {dir[index].name}
      else Files(old(chip.cells[..]), dir)
  {
    ghost var a := chip.cells[..];
    SlotBounds(a, g, dir, index);
    r := InvertSlot(chip, 8 + index * 2);
    RemovedEntry(a, chip.cells[..], g, dir, index);
  }

  /** Programs two bytes with their own complement and reads them back. */
  method InvertSlot(chip: Chip, at: nat) returns (r: bool)
    requires chip.Valid() && chip.die == 0 && at + 2 <= chip.cells.Length
    modifies chip, chip.cells
    ensures chip.Valid() && chip.die == 0
    ensures SameOutside(old(chip.cells[..]), chip.cells[..], at, at + 2)
    ensures Word16(chip.cells[..], at) == 0
    ensures r
  {
    ghost var a := chip.cells[..];
    var buf := chip.Read(at, 2);
    var inverted := [Xor8(buf[0], 255), Xor8(buf[1], 255)];
    chip.Write(at, inverted);
    SlotCleared(a, chip.cells[..], at, inverted);
    WaitReady(chip);
    buf := chip.Read(at, 2);
    r := Word16(buf, 0) == 0;
  }

  lemma ProgrammedSlice(img: Image, lo: nat, hi: nat, offset: nat, data: seq<byte>)
    requires lo + offset + |data| <= hi <= |img|
    ensures Programmed(img, lo + offset, data)[lo..hi] == Programmed(img[lo..hi], offset, data)
    ensures SameOutside(img, Programmed(img, lo + offset, data), lo + offset, lo + offset + |data|)
  {
  }

  lemma SliceOfSlice(img: Image, lo: nat, hi: nat, x: nat, y: nat)
    requires lo <= hi <= |img| && x <= y && lo + y <= hi
    ensures img[lo..hi][x..y] == img[lo + x..lo + y]
  {
    forall k | 0 <= k < y - x
      ensures img[lo..hi][x..y][k] == img[lo + x..lo + y][k]
    {
      assert img[lo..hi][x + k] == img[lo + x + k];
    }
  }

  lemma BytesWritten(a: Image, b: Image, e: Entry, offset: nat, data: seq<byte>)
    requires offset + |data| <= e.length && e.DataEnd() <= |a|
    requires b == Programmed(a, e.address + offset, data)
    ensures Contents(b, e) == Programmed(Contents(a, e), offset, data)
    ensures SameOutside(a, b, e.address + offset, e.address + offset + |data|)
  {
    ProgrammedSlice(a, e.address, e.DataEnd(), offset, data);
  }

  /** Programming part of an entry's data. */
  lemma WrittenFile(a: Image, b: Image, g: Geometry, dir: seq<Entry>, i: nat, offset: nat, data: seq<byte>)
    requires Formatted(a, g, dir) && i < |dir|
    requires offset + |data| <= dir[i].length && dir[i].DataEnd() <= |a|
    requires SameOutside(a, b, dir[i].address + offset, dir[i].address + offset + |data|)
    ensures Formatted(b, g, dir) && InRange(a, dir) && InRange(b, dir)
    ensures Files(b, dir) == if dir[i].live then Files(a, dir)[dir[i].name := Contents(b, dir[i])] else Files(a, dir)
  {
    var lo := dir[i].address + offset;
    DataChanged(a, b, g, dir, i, lo, lo + |data|);
    OthersKept(a, b, g, dir, i, lo, lo + |data|);
    FilesWritten(a, b, dir, i);
  }

  lemma WrittenHere(a: Image, b: Image, g: Geometry, dir: seq<Entry>, i: nat, offset: nat, data: seq<byte>)
    requires Formatted(a, g, dir) && i < |dir| && offset + |data| <= dir[i].length && dir[i].DataEnd() <= |a|
    requires b == Programmed(a, dir[i].address + offset, data)
    ensures Formatted(b, g, dir) && InRange(a, dir) && InRange(b, dir)
    ensures Contents(b, dir[i]) == Programmed(Contents(a, dir[i]), offset, data)
    ensures Files(b, dir) == if dir[i].live then Files(a, dir)[dir[i].name := Contents(b, dir[i])] else Files(a, dir)
  {
    hide Formatted, Programmed, Contents, Files, InRange;
    BytesWritten(a, b, dir[i], offset, data);
    WrittenFile(a, b, g, dir, i, offset, data);
  }

  /** A chip that has an entry has its directory. */
  lemma FormattedHere(a: Image, g: Geometry, dir: seq<Entry>, i: nat)
    requires (Formatted(a, g, dir) || Fresh(a, g, dir)) && i < |dir|
    ensures Formatted(a, g, dir)
  {
  }

  /** The clip's sum does not wrap back into the file. */
  predicate Steady(offset: nat, n: nat, length: nat)
  {
    offset + n < U32 || offset + n - U32 > length
  }

  /** What the clip lets through lies in the file if and only if its sum does not wrap back into it. */
  lemma ClipExactly(address: nat, offset: nat, n: nat, length: nat)
    requires address + length < U32 && offset < U32 && 0 < n < U32
    ensures var k, at := Store.Clipped(offset, n, length), Wrap(address + offset);
      && k <= n
      && (Steady(offset, n, length) <==> k == 0 || (address <= at && at + k <= address + length))
      && (Steady(offset, n, length) && k > 0 ==> at == address + offset && offset + k <= length)
      && (Steady(offset, n, length) ==>
            k == if offset >= length then 0 else if offset + n > length then length - offset else n)
  {
  }

  /** Bytes of a file, from an offset on. */
  ghost predicate IsPart(buf: seq<byte>, img: Image, dir: seq<Entry>, i: nat, offset: nat)
  {
    && i < |dir| && dir[i].DataEnd() <= |img| && offset + |buf| <= dir[i].length
    && buf == Contents(img, dir[i])[offset..offset + |buf|]
  }

  lemma WrapSmall(offset: nat)
    requires offset < U32
    ensures Wrap(offset + 0) == offset
  {
  }

  lemma SteadyEnd(offset: nat, n: nat, length: nat)
    requires offset < U32 && 0 < n < U32 && length < U32
    ensures var k := Store.Clipped(offset, n, length);
      Steady(offset, n, length) && k > 0 ==> Wrap(offset + k) == offset + k <= length
  {
  }

  lemma PartRead(buf: seq<byte>, img: Image, dir: seq<Entry>, i: nat, offset: nat)
    requires i < |dir| && dir[i].DataEnd() <= |img| && offset + |buf| <= dir[i].length
    requires buf == img[dir[i].address + offset..dir[i].address + offset + |buf|]
    ensures IsPart(buf, img, dir, i, offset)
  {
    SliceOfSlice(img, dir[i].address, dir[i].DataEnd(), offset, offset + |buf|);
  }

  lemma FileInside(file: File, img: Image, g: Geometry, dir: seq<Entry>)
    requires Laid(g, dir, |img|) && file.Of(dir)
    ensures file.address + file.length <= |img| < U32
    ensures file.length > 0 ==>
      && file.dirindex < |dir| && file.address == dir[file.dirindex].address
      && file.length == dir[file.dirindex].length
  {
    if file.dirindex < |dir| {
      assert Placed(g, dir[file.dirindex], |img|);
    }
  }

  /** Erasing all of an entry's data. */
  lemma ErasedFile(a: Image, b: Image, g: Geometry, dir: seq<Entry>, i: nat)
    requires Formatted(a, g, dir) && i < |dir|
    requires b == Erased(a, dir[i].address, dir[i].DataEnd())
    ensures Formatted(b, g, dir) && InRange(a, dir) && InRange(b, dir)
    ensures Contents(b, dir[i]) == Blanks(dir[i].length)
    ensures Files(b, dir) == if dir[i].live then Files(a, dir)[dir[i].name := Contents(b, dir[i])] else Files(a, dir)
  {
    DataChanged(a, b, g, dir, i, dir[i].address, dir[i].DataEnd());
    OthersKept(a, b, g, dir, i, dir[i].address, dir[i].DataEnd());
    FilesWritten(a, b, dir, i);
  }

  /** Erases `length` bytes, block by block. */
  method EraseBlocks(chip: Chip, address: nat, length: nat, blocksize: nat)
    requires chip.Valid() && blocksize == chip.part.BlockSize()
    requires address % blocksize == 0 && length % blocksize == 0
    requires address + length <= chip.cells.Length
    modifies chip`busy, chip`pending, chip`history, chip.cells
    ensures chip.Valid()
    ensures chip.cells[..] == Erased(old(chip.cells[..]), address, address + length)
    ensures length == 0 ==> chip.cells[..] == old(chip.cells[..])
  {
    ghost var a := chip.cells[..];
    var i := 0;
    while i < length
      invariant chip.Valid()
      invariant i <= length && i % blocksize == 0
      invariant chip.cells[..] == Erased(a, address, address + i)
      invariant i == 0 ==> chip.cells[..] == a
    {
      BlockBounds(address, i, length, blocksize);
      chip.EraseBlock(address + i);
      i := i + blocksize;
    }
  }

  lemma BlockBounds(address: nat, i: nat, length: nat, blocksize: nat)
    requires blocksize == 0x1_0000 || blocksize == 0x4_0000
    requires address % blocksize == 0 && length % blocksize == 0 && i % blocksize == 0 && i < length
    ensures (address + i) % blocksize == 0 && i + blocksize <= length && (i + blocksize) % blocksize == 0
  {
  }

  lemma FormattedOpens(img: Image, g: Geometry, dir: seq<Entry>)
    ensures Formatted(img, g, dir) ==> Opens(img, g, dir)
  {
  }

  /** A handle is null just when nothing was found. */
  lemma OpenedAddress(file: File, img: Image, g: Geometry, dir: seq<Entry>, i: int)
    requires Laid(g, dir, |img|) && file.Opened(dir, i)
    ensures file.address > 0 <==> i >= 0
    ensures file.Of(dir)
  {
    assert i >= 0 ==> Placed(g, dir[i], |img|);
  }

  /** The live entries among the first `n` are at these places, and have these names. */
  ghost predicate Listed(dir: seq<Entry>, n: nat, strsize: nat, names: seq<Name>, places: seq<nat>)
    requires n <= |dir| && strsize > 0
  {
    && |places| == |names| && (forall i, j :: 0 <= i < j < |places| ==> places[i] < places[j])
    && (forall k :: 0 <= k < |places| ==> places[k] < n && dir[places[k]].live)
    && (forall i :: 0 <= i < n && dir[i].live ==> i in places)
    && (forall k :: 0 <= k < |names| ==>
          var name := dir[places[k]].name; names[k] == if |name| < strsize then name else name[..strsize - 1])
  }

  /** A step of a listing gives the first live entry at or after `from`, if there is one. */
  ghost predicate NextShown(dir: seq<Entry>, from: nat, strsize: nat, r: bool, to: nat, name: Name)
    requires strsize > 0
  {
    if r then
      && from < to <= |dir| && dir[to - 1].live && (forall j :: from <= j < to - 1 ==> !dir[j].live)
      && name == if |dir[to - 1].name| < strsize then dir[to - 1].name else dir[to - 1].name[..strsize - 1]
    else forall j :: from <= j < |dir| ==> !dir[j].live
  }

  lemma NoneListed(dir: seq<Entry>, strsize: nat)
    requires strsize > 0
    ensures Listed(dir, 0, strsize, [], [])
  {
  }

  lemma OneListed(dir: seq<Entry>, from: nat, strsize: nat, names: seq<Name>, places: seq<nat>, to: nat, name: Name)
    requires strsize > 0 && from <= |dir| && Listed(dir, from, strsize, names, places)
    requires NextShown(dir, from, strsize, true, to, name)
    ensures Listed(dir, to, strsize, names + [name], places + [to - 1])
  {
  }

  lemma AllListed(dir: seq<Entry>, from: nat, strsize: nat, names: seq<Name>, places: seq<nat>)
    requires strsize > 0 && from <= |dir| && Listed(dir, from, strsize, names, places)
    requires forall j :: from <= j < |dir| ==> !dir[j].live
    ensures Listed(dir, |dir|, strsize, names, places)
    ensures |places| == |names| && forall i, j :: 0 <= i < j < |places| ==> places[i] < places[j]
    ensures forall k :: 0 <= k < |places| ==> places[k] < |dir| && dir[places[k]].live
    ensures forall i :: 0 <= i < |dir| && dir[i].live ==> i in places
    ensures forall k :: 0 <= k < |names| ==>
      var name := dir[places[k]].name; names[k] == if |name| < strsize then name else name[..strsize - 1]
  {
  }

  class Store {
    const chip: Chip
    var dirindex: nat        // where the next listing step starts

    ghost var g: Geometry    // the geometry the header states
    ghost var dir: seq<Entry>   // every entry ever created, in order

    ghost predicate Valid()
      reads this, chip, chip.cells
    {
      && chip.Valid() && chip.die == 0
      && (Formatted(chip.cells[..], g, dir) || Fresh(chip.cells[..], g, dir))
    }

    /** Enough to open files: the directory is in place, even if a create was cut short and
        left something behind where the next entry would go. */
    ghost predicate Readable()
      reads this, chip, chip.cells
    {
      && chip.Valid() && chip.die == 0
      && (Opens(chip.cells[..], g, dir) || Fresh(chip.cells[..], g, dir))
    }

    /** A chip that holds something other than this file system. */
    ghost predicate Foreign()
      reads this, chip, chip.cells
    {
      && chip.Valid() && chip.die == 0
      && chip.cells.Length >= 8
      && Word32(chip.cells[..], 0) != SIGNATURE && Word32(chip.cells[..], 0) != 0xFFFF_FFFF
    }

    constructor (part: Part)
      requires part.Present()
      ensures Valid() && dir == [] && dirindex == 0 && g == DEFAULT && chip.part == part
      ensures fresh(chip) && fresh(chip.cells)
      ensures chip.cells[..] == Blanks(part.Capacity())
    {
      chip := new Chip(part);
      dirindex, g, dir := 0, DEFAULT, [];
      new;
      CapacityBounds(part);
    }

    /** Writes the header on a blank chip. */
    method WriteHeader()
      requires chip.Valid() && chip.die == 0 && Fresh(chip.cells[..], g, dir)
      modifies chip, chip.cells
      ensures chip.Valid() && chip.die == 0
      ensures Formatted(chip.cells[..], g, dir)
      ensures SameOutside(old(chip.cells[..]), chip.cells[..], 0, 8)
      ensures chip.history == old(chip.history) + [chip.cells[..]]
    {
      ghost var img := chip.cells[..];
      Program(chip, 0, Header());
      HeaderStored(img, chip.cells[..], g, dir);
      WaitReady(chip);
    }

    /** Reads the header word that holds the two sizes, writing a header first if the chip is
        blank; 0 if the chip holds something else. */
    method CheckSignature() returns (w: nat)
      requires Readable() || Foreign()
      modifies chip, chip.cells
      ensures old(Readable()) ==>
        && Readable() && Opens(chip.cells[..], g, dir)
        && HeaderWord(w, g)
        && SameOutside(old(chip.cells[..]), chip.cells[..], 0, 8)
        && StepsShow(old(chip.history), chip.history, g, dir)
      ensures old(Valid()) ==> Formatted(chip.cells[..], g, dir)
      ensures old(Opens(chip.cells[..], g, dir)) && old(Readable()) ==> chip.cells[..] == old(chip.cells[..])
      ensures old(Foreign()) ==>
        w == 0 && Foreign() && chip.cells[..] == old(chip.cells[..]) && chip.history == old(chip.history)
    {
      ghost var img := chip.cells[..];
      HeaderWords(img, g, dir);
      var sig := ReadWord32(chip, 0);
      if sig == SIGNATURE {
        w := ReadWord32(chip, 4);
        return;
      }
      if sig == 0xFFFF_FFFF {
        WriteHeader();
        HeaderWords(chip.cells[..], g, dir);
        sig := ReadWord32(chip, 0);
        if sig == SIGNATURE {
          w := ReadWord32(chip, 4);
          return;
        }
      }
      return 0;
    }

    /** The part of `open` that works on the chip. */
    method Locate(name: Name) returns (hit: bool, at: nat, address: nat, length: nat)
      requires Readable() || Foreign()
      modifies chip, chip.cells
      ensures old(Readable()) ==>
        && Readable() && Opens(chip.cells[..], g, dir)
        && SameOutside(old(chip.cells[..]), chip.cells[..], 0, 8)
        && StepsShow(old(chip.history), chip.history, g, dir)
        && (hit <==> Find(dir, name) >= 0)
        && (hit ==> at == Find(dir, name) && address == dir[at].address && length == dir[at].length)
      ensures old(Valid()) ==> Formatted(chip.cells[..], g, dir)
      ensures old(Opens(chip.cells[..], g, dir)) && old(Readable()) ==> chip.cells[..] == old(chip.cells[..])
      ensures old(Foreign()) ==>
        && Foreign() && !hit
        && chip.cells[..] == old(chip.cells[..]) && chip.history == old(chip.history)
    {
      var w := CheckSignature();
      if w == 0 {
        return false, 0, 0, 0;
      }
      hit, at, address, length := Search(chip, name, w % 0x1_0000, g, dir);
      if hit {
        FindLive(dir, at);
      }
    }

    /** `open`: the live file of that name, or a null handle. */
    method Open(name: Name) returns (file: File)
      requires Readable() || Foreign()
      modifies chip, chip.cells
      ensures old(Readable()) ==>
        && Readable() && Opens(chip.cells[..], g, dir)
        && SameOutside(old(chip.cells[..]), chip.cells[..], 0, 8)
        && StepsShow(old(chip.history), chip.history, g, dir)
        && file.Opened(dir, Find(dir, name))
      ensures old(Valid()) ==> Formatted(chip.cells[..], g, dir)
      ensures old(Foreign()) ==>
        && Foreign() && file.Opened([], -1)
        && chip.cells[..] == old(chip.cells[..]) && chip.history == old(chip.history)
      ensures fresh(file)
    {
      var hit, at, address, length := Locate(name);
      if hit {
        file := new File.For(address, length, at);
      } else {
        file := new File();
      }
    }

    /** The files as their users see them. */
    ghost function View(): map<Name, seq<byte>>
      requires Readable()
      reads this, chip, chip.cells
    {
      Files(chip.cells[..], dir)
    }

    method Exists(name: Name) returns (r: bool)
      requires Valid()
      modifies chip, chip.cells
      ensures Valid() && View() == old(View())
      ensures r <==> name in View()
    {
      ghost var img := chip.cells[..];
      var file := Open(name);
      r := file.address > 0;
      HeaderWritten(img, chip.cells[..], g, dir);
      FilesFind(chip.cells[..], dir, name);
    }

    /** Placing and programming the new entry. */
    method Allocate(name: Name, length: nat, align: nat, maxFiles: nat, stringSize: nat, index: nat)
      returns (r: bool)
      requires chip.Valid() && chip.die == 0 && Opens(chip.cells[..], g, dir)
      requires maxFiles == g.maxFiles && stringSize == g.strings && index == |dir| < maxFiles
      requires length < U32 && align < U32 && DataEnd(g, dir) <= chip.cells.Length < U32
      requires Accepted(DataEnd(g, dir), length, align, chip.cells.Length) ==>
        OnChip(chip.cells[..], g, |dir|, NewEntry(g, dir, name, FilenameHash(name), length, align))
      modifies chip, chip.cells
      ensures chip.Valid() && chip.die == 0
      ensures r == Accepted(DataEnd(g, dir), length, align, chip.cells.Length)
      ensures r ==> Added(old(chip.cells[..]), chip.cells[..], old(chip.history), chip.history, g, dir,
                          NewEntry(g, dir, name, FilenameHash(name), length, align))
      ensures !r ==> chip.cells[..] == old(chip.cells[..]) && chip.history == old(chip.history)
    {
      hide Accepted, OnChip, NewEntry, FilenameHash, HoldsInfo, DataEnd, RecordOf, HoldsHeader;
      ghost var e := NewEntry(g, dir, name, FilenameHash(name), length, align);
      LastHeld(chip.cells[..], g, dir);
      NamedAs(g, dir, name, FilenameHash(name), length, align);
      StringPlan(g, dir, chip.cells.Length);
      var straddr, rec;
      r, straddr, rec := Plan(chip, g, dir, name, e.hash, length, align, maxFiles, stringSize, index);
      if r {
        AddEntry(chip, g, dir, maxFiles, index, straddr, name, rec, e);
      }
    }

    /** `exists` and `check_signature`, as a create begins: 0 when it has to give up. */
    method Begin(name: Name) returns (w: nat)
      requires Readable() || Foreign()
      modifies chip, chip.cells
      ensures old(Readable()) ==>
        && Readable() && Opens(chip.cells[..], g, dir)
        && SameOutside(old(chip.cells[..]), chip.cells[..], 0, 8)
        && StepsShow(old(chip.history), chip.history, g, dir)
        && (w == 0 <==> Find(dir, name) >= 0)
        && (w != 0 ==> HeaderWord(w, g))
      ensures old(Valid()) ==> Formatted(chip.cells[..], g, dir)
      ensures old(Opens(chip.cells[..], g, dir)) && old(Readable()) ==> chip.cells[..] == old(chip.cells[..])
      ensures old(Foreign()) ==> w == 0 && Foreign() && chip.cells[..] == old(chip.cells[..])
    {
      hide Committed, Spare, Hashed, IsBlank, SameOutside, HeaderWord;
      ghost var readable, h0 := Readable(), chip.history;
      var hit, at, address, length := Locate(name);
      ghost var h1 := chip.history;
      if hit {
        w := 0;
      } else {
        w := CheckSignature();
        if readable {
          StepsJoin(h0, h1, chip.history, g, dir);
        }
      }
    }

    /** The rest of a create, once the directory is known to be there and the name to be new. */
    method Finish(name: Name, length: nat, align: nat, w: nat) returns (r: bool)
      requires chip.Valid() && chip.die == 0 && Opens(chip.cells[..], g, dir)
      requires HeaderWord(w, g) && Find(dir, name) < 0
      requires length < U32 && align < U32 && NameOnChip(g, dir, name, length, align, chip.cells.Length)
      modifies chip, chip.cells
      ensures chip.Valid() && chip.die == 0
      ensures DataEnd(g, dir) <= chip.cells.Length < U32
      ensures r == Creatable(g, dir, name, length, align, chip.cells.Length)
      ensures !r ==> chip.cells[..] == old(chip.cells[..]) && chip.history == old(chip.history)
      ensures r ==> Added(old(chip.cells[..]), chip.cells[..], old(chip.history), chip.history, g, dir,
                          NewEntry(g, dir, name, FilenameHash(name), length, align))
    {
      hide Accepted, NewEntry, FilenameHash, DataEnd, NextString, Committed, Hashed;
      var stringSize, maxFiles := w / 0x1_0000 * 4, w % 0x1_0000;
      CommittedLaid(chip.cells[..], g, dir);
      var index := FindUnallocated(chip, maxFiles, g, dir);
      if index >= maxFiles {
        return false;
      }
      NamedAs(g, dir, name, FilenameHash(name), length, align);
      StringPlan(g, dir, chip.cells.Length);
      r := Allocate(name, length, align, maxFiles, stringSize, index);
    }

    /** `create`, also over what a create that was cut short has left behind. Before the last of its
        programs the chip always reads as the old directory. On a chip that holds something else
        `Begin` returns 0, and that is the end of it. */
    method Create(name: Name, length: nat, align: nat) returns (r: bool)
      requires Readable()
      requires length < U32 && align < U32 && NameOnChip(g, dir, name, length, align, chip.cells.Length)
      modifies this`dir, chip, chip.cells
      ensures chip.Valid() && chip.die == 0 && DataEnd(g, old(dir)) < U32
      ensures r == Creatable(g, old(dir), name, length, align, chip.cells.Length)
      ensures !r ==> dir == old(dir) && Readable() && View() == old(View()) && (old(Valid()) ==> Valid())
      ensures r ==>
        var e := NewEntry(g, old(dir), name, FilenameHash(name), length, align);
        && dir == old(dir) + [e]
        && ((Readable() && length <= e.length)
            <==> (Roomy(g, old(dir), name, length, align) && TakesNew(old(chip.cells[..]), g, |old(dir)|, e)))
        && (Readable() ==>
              e.DataEnd() <= chip.cells.Length && View() == old(View())[name := Contents(old(chip.cells[..]), e)])
        && (Readable() && old(Valid()) ==> Valid() && View() == old(View())[name := Blanks(e.length)])
        && (old(Valid()) && Roomy(g, old(dir), name, length, align) ==> Readable())
        && (NoWrap(DataEnd(g, old(dir)), length, align) ==>
              AsAsked(e, DataEnd(g, old(dir)), NamesEnd(g, old(dir)), name, length, align))
        && (old(Opens(chip.cells[..], g, dir)) ==>
              OnChip(old(chip.cells[..]), g, |old(dir)|, e)
              && chip.cells[..] == Written(old(chip.cells[..]), g, |old(dir)|, e))
      ensures
        && |old(chip.history)| <= |chip.history| - (if r then 1 else 0)
        && StepsShow(old(chip.history), chip.history[..|chip.history| - (if r then 1 else 0)], g, old(dir))
    {
      hide Files, Committed, Spare, Hashed, Accepted, Roomy, NewEntry, FilenameHash, TakesNew, Written, OnChip, DataEnd;
      hide NoWrap, AsAsked, Laid;
      hide SameOutside, HeaderWord, NextString, InRange, Contents;
      ghost var start, h0, was := chip.cells[..], chip.history, dir;
      var w := Begin(name);
      ghost var a, h1 := chip.cells[..], chip.history;
      CommittedLaid(a, g, dir);
      HeaderWritten(start, a, g, dir);
      r := false;
      if w != 0 {
        r := Finish(name, length, align, w);
      }
      ghost var shown := chip.history[..|chip.history| - (if r then 1 else 0)];
      StepsJoin(h0, h1, shown, g, was);
      if r {
        CreateMeans(start, a, g, was, name, length, align);
        if NoWrap(DataEnd(g, was), length, align) {
          NewEntryAsAsked(g, was, name, FilenameHash(name), length, align, chip.cells.Length);
        }
        dir := dir + [NewEntry(g, was, name, FilenameHash(name), length, align)];
      }
    }

    /** `remove` of an open file, which is not forgotten until its hash slot reads back as zero. */
    method RemoveFile(file: File) returns (r: bool)
      requires Valid() && file.Of(dir)
      requires file.address > 0 ==> Formatted(chip.cells[..], g, dir)
      modifies this`dir, chip, chip.cells, file`address, file`length
      ensures Valid()
      ensures r <==> old(file.address) > 0
      ensures r ==>
        && file.dirindex < |old(dir)| && dir == Deleted(old(dir), file.dirindex)
        && View() == (if old(dir[file.dirindex].live) then old(View()) - {old(dir[file.dirindex].name)}
                      else old(View()))
        && file.address == 0 && file.length == 0
      ensures !r ==> dir == old(dir) && chip.cells[..] == old(chip.cells[..])
    {
      if !(file.address > 0) {
        return false;
      }
      r := ZeroSlot(chip, file.dirindex, g, dir);
      if r {
        dir := Deleted(dir, file.dirindex);
        file.address, file.length := 0, 0;
      }
    }

    /** `remove` by name. */
    method Remove(name: Name) returns (r: bool)
      requires Valid()
      modifies this`dir, chip, chip.cells
      ensures Valid()
      ensures r <==> name in old(View())
      ensures View() == old(View()) - {name}
      ensures var i := Find(old(dir), name); dir == if i >= 0 then Deleted(old(dir), i) else old(dir)
    {
      hide Formatted, Fresh, Opens, Files, Find, Laid, InRange, SameOutside;
      ghost var img := chip.cells[..];
      FormattedOpens(img, g, dir);
      var file := Open(name);
      ValidLaid(img, g, dir);
      HeaderWritten(img, chip.cells[..], g, dir);
      FilesFind(chip.cells[..], dir, name);
      OpenedAddress(file, chip.cells[..], g, dir, Find(dir, name));
      r := RemoveFile(file);
    }

    method CreateErasable(name: Name, length: nat) returns (r: bool)
      requires Valid()
      requires length < U32 && Affordable(g, dir, name, length, chip.part.BlockSize(), chip.cells.Length)
      modifies this`dir, chip, chip.cells
      ensures Valid()
      ensures r == Creatable(g, old(dir), name, length, chip.part.BlockSize(), chip.cells.Length)
      ensures !r ==> dir == old(dir) && View() == old(View())
      ensures r ==>
        && dir != [] && dir[..|dir| - 1] == old(dir) && DataEnd(g, old(dir)) < U32
        && AsAsked(dir[|dir| - 1], DataEnd(g, old(dir)), NamesEnd(g, old(dir)), name, length, chip.part.BlockSize())
        && View() == old(View())[name := Blanks(dir[|dir| - 1].length)]
    {
      hide Committed, Spare, Hashed, Creatable, Affordable, NewEntry, NameOnChip, TakesNew, Written, Files;
      hide OnChip, Roomy, FilenameHash, NoWrap, AsAsked;
      ghost var was := dir;
      EndOf(chip.cells[..], g, dir);
      AffordedRoom(g, dir, name, length, chip.part.BlockSize(), chip.cells.Length);
      AffordedName(chip.cells[..], g, dir, name, length, chip.part.BlockSize());
      r := Create(name, length, chip.part.BlockSize());
      if r {
        RoomyFits(g, was, name, length, chip.part.BlockSize());
      }
    }

    method Opendir()
      modifies this`dirindex
      ensures dirindex == 0
    {
      dirindex := 0;
    }

    /** One step of a listing: the next live entry at or after `dirindex`, if there is one. */
    method Readdir(strsize: nat) returns (r: bool, filename: Name, filesize: nat)
      requires Valid() && strsize > 0
      modifies this`dirindex, chip, chip.cells
      ensures Valid() && View() == old(View())
      ensures NextShown(dir, old(dirindex), strsize, r, dirindex, filename)
      ensures r ==> filesize == dir[dirindex - 1].length
    {
      hide NextShown, Committed, Spare, Hashed, Files;
      r, filename, filesize := false, [], 0;
      ghost var img := chip.cells[..];
      var w := CheckSignature();
      ValidLaid(img, g, dir);
      HeaderWritten(img, chip.cells[..], g, dir);
      if w == 0 {
        return;
      }
      r, filename, filesize := NextEntry(w % 0x1_0000, strsize);
    }

    method NextEntry(maxFiles: nat, strsize: nat) returns (r: bool, filename: Name, filesize: nat)
      requires chip.Valid() && Formatted(chip.cells[..], g, dir) && maxFiles == g.maxFiles && strsize > 0
      modifies this`dirindex, chip`busy, chip`pending
      ensures chip.Valid()
      ensures NextShown(dir, old(dirindex), strsize, r, dirindex, filename)
      ensures r ==> filesize == dir[dirindex - 1].length
    {
      hide HoldsEntry, Hashed, Ordered, Placed, HoldsText;
      filename, filesize := [], 0;
      var index := SkipDeleted(chip, dirindex, maxFiles, g, dir);
      if index >= maxFiles {
        return false, filename, filesize;
      }
      dirindex := index + 1;
      var straddr;
      r, filesize, straddr := ReadSizeAndName(chip, maxFiles, index, g, dir);
      if r {
        filename := CopyName(chip, straddr, strsize, dir[index].name);
      }
    }

    /** A whole listing, from `opendir` to the first `readdir` that fails: the live files in the
        order they were created. */
    method List(strsize: nat) returns (names: seq<Name>, ghost places: seq<nat>)
      requires Valid() && strsize > 0
      modifies this`dirindex, chip, chip.cells
      ensures Valid() && View() == old(View())
      ensures |places| == |names| && forall i, j :: 0 <= i < j < |places| ==> places[i] < places[j]
      ensures forall k :: 0 <= k < |places| ==> places[k] < |dir| && dir[places[k]].live
      ensures forall i :: 0 <= i < |dir| && dir[i].live ==> i in places
      ensures forall k :: 0 <= k < |names| ==>
        var name := dir[places[k]].name; names[k] == if |name| < strsize then name else name[..strsize - 1]
    {
      hide Committed, Spare, Hashed, Files, Listed;
      Opendir();
      names, places := [], [];
      NoneListed(dir, strsize);
      var r, filename, filesize := Readdir(strsize);
      ghost var from: nat := 0;
      while r
        invariant Valid() && View() == old(View()) && from <= |dir|
        invariant Listed(dir, from, strsize, names, places)
        invariant NextShown(dir, from, strsize, r, dirindex, filename)
        decreases r, |dir| - dirindex
      {
        OneListed(dir, from, strsize, names, places, dirindex, filename);
        names, places, from := names + [filename], places + [dirindex - 1], dirindex;
        r, filename, filesize := Readdir(strsize);
      }
      AllListed(dir, from, strsize, names, places);
    }

    // An open file.

    /** How much of a request of `n` bytes the clip lets through; its sum has 32 bits. */
    static function Clipped(offset: nat, n: nat, length: nat): nat
      requires offset < U32 && n < U32
    {
      if Wrap(offset + n) > length then (if offset >= length then 0 else length - offset) else n
    }

    method ReadFile(file: File, n: nat) returns (buf: seq<byte>)
      requires Valid() && file.Of(dir) && file.offset < U32 && 0 < n < U32
      requires Steady(file.offset, n, file.length)
            || Wrap(file.address + file.offset) + n <= chip.cells.Length
      modifies chip, file`offset
      ensures Valid() && file.address < U32
      ensures |buf| == Clipped(old(file.offset), n, file.length)
      ensures file.offset == Wrap(old(file.offset) + |buf|)
      ensures buf != [] ==>
        var at := Wrap(file.address + old(file.offset));
        at + |buf| <= chip.cells.Length && buf == chip.cells[at..at + |buf|]
      ensures buf != [] && Steady(old(file.offset), n, file.length) ==>
        && file.offset == old(file.offset) + |buf| <= file.length
        && IsPart(buf, chip.cells[..], dir, file.dirindex, old(file.offset))
    {
      hide Formatted, Fresh, Files, Placed, Ordered, Laid, Wrap, Steady, Clipped, IsPart;
      ValidLaid(chip.cells[..], g, dir);
      FileInside(file, chip.cells[..], g, dir);
      ghost var offset := file.offset;
      ClipExactly(file.address, offset, n, file.length);
      SteadyEnd(offset, n, file.length);
      buf := ReadClipped(file, n);
      if buf != [] && Steady(offset, n, file.length) {
        PartRead(buf, chip.cells[..], dir, file.dirindex, offset);
      }
    }

    /** The bytes themselves, wherever the handle points. */
    method ReadClipped(file: File, n: nat) returns (buf: seq<byte>)
      requires chip.Valid() && file.address < U32 && file.offset < U32 && 0 < n < U32
      requires Clipped(file.offset, n, file.length) > 0 ==>
        Wrap(file.address + file.offset) + Clipped(file.offset, n, file.length) <= chip.cells.Length
      modifies chip`busy, chip`pending, file`offset
      ensures chip.Valid()
      ensures |buf| == Clipped(old(file.offset), n, file.length)
      ensures file.offset == Wrap(old(file.offset) + |buf|)
      ensures buf != [] ==>
        var at := Wrap(file.address + old(file.offset));
        at + |buf| <= chip.cells.Length && buf == chip.cells[at..at + |buf|]
    {
      hide Wrap;
      var rdlen := n;
      if Wrap(file.offset + rdlen) > file.length {
        if file.offset >= file.length {
          WrapSmall(file.offset);
          return [];
        }
        rdlen := file.length - file.offset;
      }
      buf := chip.Read(Wrap(file.address + file.offset), rdlen);
      file.offset := Wrap(file.offset + rdlen);
    }

    /** Writing programs the file's own bytes, clipped to its end, and changes no other file, unless
        the clip's sum wraps back into the file. */
    method WriteFile(file: File, data: seq<byte>) returns (n: nat)
      requires Valid() && file.Of(dir) && file.offset < U32 && 0 < |data| < U32
      requires Steady(file.offset, |data|, file.length)
            || Wrap(file.address + file.offset) + |data| <= chip.cells.Length
      modifies chip, chip.cells, file`offset
      ensures chip.Valid() && file.address < U32
      ensures n == Clipped(old(file.offset), |data|, file.length) <= |data|
      ensures file.offset == Wrap(old(file.offset) + n)
      ensures n == 0 ==> Valid() && chip.cells[..] == old(chip.cells[..])
      ensures n > 0 ==>
        var at := Wrap(file.address + old(file.offset));
        at + n <= chip.cells.Length && chip.cells[..] == Programmed(old(chip.cells[..]), at, data[..n])
      ensures n > 0 && Steady(old(file.offset), |data|, file.length) ==>
        && Valid() && file.dirindex < |dir| && dir[file.dirindex].DataEnd() <= chip.cells.Length
        && file.offset == old(file.offset) + n <= dir[file.dirindex].length
        && var e := dir[file.dirindex];
           var now := Programmed(old(Contents(chip.cells[..], dir[file.dirindex])), old(file.offset), data[..n]);
           && Contents(chip.cells[..], e) == now
           && View() == if e.live then old(View())[e.name := now] else old(View())
    {
      hide Formatted, Fresh, Files, Placed, Ordered, Contents, Programmed, InRange;
      ghost var a := chip.cells[..];
      ValidLaid(a, g, dir);
      FileInside(file, a, g, dir);
      ClipExactly(file.address, file.offset, |data|, file.length);
      n := |data|;
      if Wrap(file.offset + n) > file.length {
        if file.offset >= file.length {
          return 0;
        }
        n := file.length - file.offset;
      }
      ghost var offset := file.offset;
      chip.Write(Wrap(file.address + file.offset), data[..n]);
      file.offset := Wrap(file.offset + n);
      if Steady(offset, |data|, file.length) {
        FormattedHere(a, g, dir, file.dirindex);
        WrittenHere(a, chip.cells[..], g, dir, file.dirindex, offset, data[..n]);
      }
    }

    method SeekFile(file: File, n: nat)
      requires n < U32
      modifies file`offset
      ensures file.offset == n
    {
      file.offset := n;
    }

    method AvailableIn(file: File) returns (n: nat)
      ensures n == if file.offset >= file.length then 0 else file.length - file.offset
      ensures file.offset + file.length < U32 && file.length > 0 ==> n == Clipped(file.offset, file.length, file.length)
    {
      if file.offset >= file.length {
        return 0;
      }
      n := file.length - file.offset;
    }

    /** `erase`: blanks a file made of whole blocks, and does nothing to any other. */
    method EraseFile(file: File)
      requires Valid() && file.Of(dir)
      modifies chip, chip.cells
      ensures Valid()
      ensures
        if file.length > 0 && file.address % chip.part.BlockSize() == 0
                           && file.length % chip.part.BlockSize() == 0 then
          && file.dirindex < |dir| && dir[file.dirindex].DataEnd() <= chip.cells.Length
          && var e := dir[file.dirindex];
             && Contents(chip.cells[..], e) == Blanks(e.length)
             && View() == if e.live then old(View())[e.name := Blanks(e.length)] else old(View())
        else chip.cells[..] == old(chip.cells[..])
    {
      var blocksize := chip.part.BlockSize();
      if file.address % blocksize != 0 || file.length % blocksize != 0 {
        return;
      }
      ghost var a := chip.cells[..];
      ValidLaid(a, g, dir);
      EraseBlocks(chip, file.address, file.length, blocksize);
      if file.length > 0 {
        ErasedFile(a, chip.cells[..], g, dir, file.dirindex);
      }
    }
  }

  // What the code does not guard against.

  /** What a create that was cut short has left behind can spoil the next one: of two names of one
      letter, "a" over "b" is neither. */
  lemma LeftoverSpoils(a: Image, g: Geometry, n: nat, e: Entry)
    requires OnChip(a, g, n, e) && e.name == [97] && a[e.strAt] == 98
    ensures !TakesNew(a, g, n, e) && Written(a, g, n, e)[e.strAt] == 96
  {
    hide RecordOf;
    NeitherName();
    WrittenBytes(a, g, n, e);
    var b, text := Written(a, g, n, e), e.name + [0];
    assert text[0] == 97;
    assert b[e.strAt + 0] == And8(a[e.strAt + 0], text[0]);
    assert Takes(a, e.strAt, text) == (And8(a[e.strAt + 0], text[0]) == text[0] && Takes(a, e.strAt, text));
  }

  lemma NeitherName()
    ensures And8(98, 97) == 96
  {
    assert AndBits(12, 12, 5) == 12;
    assert AndBits(24, 24, 6) == 24;
    assert AndBits(49, 48, 7) == 48;
  }

  /** The create itself reports success, and leaves no directory that can be read. */
  method CreateSpoiled(store: Store) returns (r: bool)
    requires store.Readable() && Opens(store.chip.cells[..], store.g, store.dir) && store.dir == []
    requires store.g.DataBase() + 0x1000 <= store.chip.cells.Length
    requires store.chip.cells[store.g.StringBase()] == 98
    modifies store`dir, store.chip, store.chip.cells
    ensures r && !store.Readable() && store.chip.cells[store.g.StringBase()] == 96
  {
    hide Committed, Opens, FilenameHash, Written, TakesNew, OnChip;
    ghost var a, g := store.chip.cells[..], store.g;
    FirstAccepted(g, a);
    FirstEntry(g, a);
    r := store.Create([97], 0x100, 0);
    LeftoverSpoils(a, g, 0, NewEntry(g, [], [97], FilenameHash([97]), 0x100, 0));
  }

  lemma FirstAccepted(g: Geometry, a: Image)
    requires Opens(a, g, []) && g.DataBase() + 0x1000 <= |a|
    ensures Creatable(g, [], [97], 0x100, 0, |a|) && NameOnChip(g, [], [97], 0x100, 0, |a|)
  {
  }

  lemma FirstEntry(g: Geometry, a: Image)
    requires Opens(a, g, []) && g.DataBase() + 0x1000 <= |a|
    ensures var e := NewEntry(g, [], [97], FilenameHash([97]), 0x100, 0);
      e.strAt == g.StringBase() && e.name == [97] && e.length == 0x100 && OnChip(a, g, 0, e)
  {
  }

  /** A seek to just below 2^32 and a write that comes round again program the bytes before the file,
      which are the file's before it. */
  method NeighbourWritten(store: Store, file: File, data: seq<byte>) returns (n: nat)
    requires store.Valid() && file.Of(store.dir) && |data| == 32 && 0 < file.dirindex < |store.dir|
    requires file.address == store.dir[file.dirindex].address && file.length == store.dir[file.dirindex].length
    requires var d := store.dir[file.dirindex - 1]; d.DataEnd() == file.address && d.length >= 16
    requires file.length >= 16
    modifies store.chip, store.chip.cells, file`offset
    ensures n == 32
    ensures var d := store.dir[file.dirindex - 1];
      && d.DataEnd() <= store.chip.cells.Length
      && Contents(store.chip.cells[..], d)
         == Programmed(old(Contents(store.chip.cells[..], d)), d.length - 16, data[..16])
  {
    hide Formatted, Fresh, Files, Placed, Ordered, Laid, Contents, Programmed, InRange;
    ghost var a, i := store.chip.cells[..], file.dirindex;
    ValidLaid(a, store.g, store.dir);
    FileInside(file, a, store.g, store.dir);
    store.SeekFile(file, 0xFFFF_FFF0);
    n := store.WriteFile(file, data);
    assert data[..32] == data;
    FirstHalf(a, store.chip.cells[..], store.dir[i - 1], data);
  }

  lemma FirstHalf(a: Image, b: Image, d: Entry, data: seq<byte>)
    requires |data| == 32 && d.length >= 16 && d.DataEnd() + 16 <= |a|
    requires b == Programmed(a, d.DataEnd() - 16, data)
    ensures Contents(b, d) == Programmed(Contents(a, d), d.length - 16, data[..16])
  {
  }
}
