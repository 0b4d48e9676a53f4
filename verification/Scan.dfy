// Reading the directory: the header, hash slots, info records and names, and the search that
// `open` makes over them.
module Scan {
  import opened Bytes
  import opened Chip
  import opened Layout
  import opened Updates

  ghost predicate Formatted(img: Image, g: Geometry, dir: seq<Entry>)
  {
    Committed(img, g, dir) && Spare(img, g, dir) && Hashed(dir)
  }

  /** A chip nothing has been written to yet; the first use of it writes the header. */
  ghost predicate Fresh(img: Image, g: Geometry, dir: seq<Entry>)
  {
    g == DEFAULT && dir == [] && g.Fits(|img|) && IsBlank(img, 0, |img|)
  }

  ghost predicate Opens(img: Image, g: Geometry, dir: seq<Entry>)
  {
    Committed(img, g, dir) && Hashed(dir)
  }

  /** Every image added to the history reads as the directory `dir`. */
  ghost predicate StepsShow(before: seq<Image>, after: seq<Image>, g: Geometry, dir: seq<Entry>)
  {
    && before <= after
    && forall j {:trigger Committed(after[j], g, dir)} :: |before| <= j < |after| ==> Committed(after[j], g, dir)
  }

  /** The header a blank chip is given. */
  function Header(): (h: seq<byte>)
    ensures |h| == 8 && Word32(h, 0) == SIGNATURE
    ensures Word16(h, 4) == DEFAULT.maxFiles && Word16(h, 6) * 4 == DEFAULT.strings
  {
    Le32(SIGNATURE) + Le16(600) + Le16(6390)
  }

  lemma HeaderStored(a: Image, b: Image, g: Geometry, dir: seq<Entry>)
    requires Fresh(a, g, dir) && Stored(a, b, 0, Header())
    ensures Formatted(b, g, dir)
  {
    var h := Header();
    assert b[0 + 0] == h[0] && b[0 + 1] == h[1] && b[0 + 2] == h[2] && b[0 + 3] == h[3];
    assert b[0 + 4] == h[4] && b[0 + 5] == h[5] && b[0 + 6] == h[6] && b[0 + 7] == h[7];
    assert HoldsHeader(b, g);
  }

  /** What the second header word says. */
  ghost predicate HeaderWord(w: nat, g: Geometry)
  {
    w != 0 && w % 0x1_0000 == g.maxFiles && w / 0x1_0000 * 4 == g.strings
  }

  lemma HeaderWords(img: Image, g: Geometry, dir: seq<Entry>)
    requires |img| >= 8
    ensures Opens(img, g, dir) ==>
      Word32(img, 0) == SIGNATURE && HeaderWord(Word32(img, 4), g)
    ensures Fresh(img, g, dir) ==> Word32(img, 0) == 0xFFFF_FFFF
  {
    HighAndLow(Word16(img, 4), Word16(img, 6));
  }

  lemma HighAndLow(lo: nat, hi: nat)
    requires lo < 0x1_0000
    ensures (lo + 0x1_0000 * hi) % 0x1_0000 == lo && (lo + 0x1_0000 * hi) / 0x1_0000 == hi
  {
  }

  lemma CapacityBounds(p: Part)
    requires p.Present()
    ensures 0x1_0000 <= p.Capacity() < U32
  {
    assert Shift(4) == 16;
    assert Shift(8) == 256;
    assert Shift(12) == 4096;
    assert Shift(16) == 0x1_0000;
    ShiftGrows(16, if 16 <= p.id2 <= 31 then p.id2 else 20);
    ShiftGrows(if 16 <= p.id2 <= 31 then p.id2 else 20, 31);
    ShiftGrows(16, if 32 <= p.id2 <= 37 then p.id2 - 6 else 20);
    ShiftGrows(if 32 <= p.id2 <= 37 then p.id2 - 6 else 20, 31);
    assert Shift(20) == 0x10_0000;
    assert Shift(24) == 0x100_0000;
    assert Shift(28) == 0x1000_0000;
    assert Shift(31) == 0x8000_0000;
  }

  lemma {:induction false} ShiftGrows(m: nat, n: nat)
    requires m <= n
    ensures Shift(m) <= Shift(n)
  {
    if m < n {
      ShiftGrows(m, n - 1);
    }
  }

  class File {
    var address: nat    // where the data begins, or zero
    var length: nat
    var offset: nat     // the current read/write offset
    var dirindex: nat

    constructor ()
      ensures address == 0 && length == 0 && offset == 0 && dirindex == 0
    {
      address, length, offset, dirindex := 0, 0, 0, 0;
    }

    /** The handle stands for an entry of `dir`, live or deleted since, or is null. */
    ghost predicate Of(dir: seq<Entry>)
      reads this
    {
      || (address == 0 && length == 0)
      || (dirindex < |dir| && address == dir[dirindex].address && length == dir[dirindex].length)
    }

    constructor For(address: nat, length: nat, dirindex: nat)
      ensures this.address == address && this.length == length && this.dirindex == dirindex && offset == 0
    {
      this.address, this.length, this.offset, this.dirindex := address, length, 0, dirindex;
    }

    /** The handle as `open` returns it: for entry `i`, or null for a negative one. */
    ghost predicate Opened(dir: seq<Entry>, i: int)
      reads this
    {
      if i < 0 then address == 0 && length == 0 && offset == 0
      else
        && i < |dir| && dirindex == i && offset == 0
        && address == dir[i].address && length == dir[i].length
    }
  }

  method ReadWord32(chip: Chip, at: nat) returns (w: nat)
    requires chip.Valid() && at + 4 <= chip.cells.Length
    modifies chip`busy, chip`pending
    ensures chip.Valid() && w == Word32(chip.cells[..], at)
  {
    var buf := chip.Read(at, 4);
    w := Word32(buf, 0);
    assert Word16(buf, 0) == Word16(chip.cells[..], at);
    assert Word16(buf, 2) == Word16(chip.cells[..], at + 2);
  }

  /** Programs a range that is still blank, which stores exactly `data`. */
  method Program(chip: Chip, at: nat, data: seq<byte>)
    requires chip.Valid()
    requires 1 <= |data| && IsBlank(chip.cells[..], at, at + |data|)
    modifies chip`busy, chip`pending, chip`history, chip.cells
    ensures chip.Valid()
    ensures Stored(old(chip.cells[..]), chip.cells[..], at, data)
    ensures old(chip.history) < chip.history
    ensures forall j :: |old(chip.history)| <= j < |chip.history| ==>
      SameOutside(old(chip.cells[..]), chip.history[j], at, at + |data|)
    ensures |data| <= PAGE - at % PAGE ==> chip.history == old(chip.history) + [chip.cells[..]]
  {
    ProgramBlank(chip.cells[..], at, data);
    chip.Write(at, data);
  }

  /** Waits until no operation is in progress. */
  method WaitReady(chip: Chip)
    requires chip.Valid() && chip.die == 0
    modifies chip, chip.cells
    ensures chip.Valid() && chip.die == 0
    ensures chip.cells[..] == old(chip.cells[..]) && chip.history == old(chip.history)
  {
    var r := false;
    while !r
      invariant chip.Valid() && chip.die == 0
      invariant chip.cells[..] == old(chip.cells[..]) && chip.history == old(chip.history)
      decreases !r, chip.pending
    {
      r := chip.Ready();
    }
  }

  method HashName(name: Name) returns (h: nat)
    ensures h == FilenameHash(name)
  {
    hide Xor8;
    h := 2166136261;
    for k := 0 to |name|
      invariant h == Fnv(name, k)
    {
      h := h - h % 256 + Xor8(h % 256, name[k]);
      h := h * 16777619 % U32;
    }
    h := h % 0xFFFE + 1;
  }

  /** Compares a name with the stored one, sixteen bytes at a time. */
  method FilenameCompare(chip: Chip, name: Name, straddr: nat, ghost stored: Name) returns (same: bool)
    requires chip.Valid()
    requires HoldsText(chip.cells[..], straddr, stored)
    requires straddr + |stored| + 16 <= chip.cells.Length
    modifies chip`busy, chip`pending
    ensures chip.Valid()
    ensures same <==> name == stored
  {
    ghost var img := chip.cells[..];
    var p := 0;
    while true
      invariant chip.Valid() && chip.cells[..] == img
      invariant p <= |stored| && p <= |name| && name[..p] == stored[..p]
      decreases |stored| - p
    {
      var buf := chip.Read(straddr + p, 16);
      ghost var p0 := p;
      for i := 0 to 16
        invariant p == p0 + i
        invariant p <= |stored| && p <= |name| && name[..p] == stored[..p]
      {
        var c: byte := if p < |name| then name[p] else 0;
        assert buf[i] == img[straddr + p];
        assert buf[i] == if p < |stored| then stored[p] else 0;
        if c != buf[i] {
          return false;
        }
        if buf[i] == 0 {
          assert name == name[..p] && stored == stored[..p];
          return true;
        }
        p := p + 1;
      }
    }
  }

  /** The length of a stored string, terminator included. */
  method StringLength(chip: Chip, straddr: nat, ghost stored: Name) returns (len: nat)
    requires chip.Valid()
    requires HoldsText(chip.cells[..], straddr, stored)
    requires straddr + |stored| + 16 <= chip.cells.Length
    modifies chip`busy, chip`pending
    ensures chip.Valid()
    ensures len == |stored| + 1
  {
    ghost var img := chip.cells[..];
    len := 0;
    while true
      invariant chip.Valid() && chip.cells[..] == img
      invariant len <= |stored|
      decreases |stored| - len
    {
      var buf := chip.Read(straddr + len, 16);
      ghost var len0 := len;
      for p := 0 to 16
        invariant len == len0 + p && len <= |stored|
      {
        assert buf[p] == img[straddr + len];
        assert buf[p] == if len < |stored| then stored[len] else 0;
        len := len + 1;
        if buf[p] == 0 {
          return;
        }
      }
    }
  }

  /** What a hash slot says about the entry it belongs to. */
  lemma SlotMeaning(img: Image, g: Geometry, dir: seq<Entry>, j: nat)
    requires Opens(img, g, dir) && j <= |dir| && j < g.maxFiles
    ensures j == |dir| <==> Word16(img, g.HashAt(j)) == 0xFFFF
    ensures j < |dir| ==> Word16(img, g.HashAt(j)) == if dir[j].live then FilenameHash(dir[j].name) else 0
  {
    if j < |dir| {
      assert HoldsEntry(img, g, j, dir[j]) && HashRight(dir[j]);
    }
  }

  /** Reads `n` hash slots. */
  method ReadSlots(chip: Chip, index: nat, n: nat) returns (table: seq<nat>)
    requires chip.Valid() && n > 0 && 8 + index * 2 + n * 2 <= chip.cells.Length
    modifies chip`busy, chip`pending
    ensures chip.Valid()
    ensures |table| == n
    ensures forall i :: 0 <= i < n ==> table[i] == Word16(chip.cells[..], 8 + 2 * (index + i))
  {
    var buf := chip.Read(8 + index * 2, n * 2);
    table := seq(n, i requires 0 <= i < n => Word16(buf, 2 * i));
    forall i | 0 <= i < n
      ensures table[i] == Word16(chip.cells[..], 8 + 2 * (index + i))
    {
      assert buf[2 * i] == chip.cells[8 + 2 * (index + i)];
      assert buf[2 * i + 1] == chip.cells[8 + 2 * (index + i) + 1];
    }
  }

  /** Reads an info record. */
  method ReadInfo(chip: Chip, maxFiles: nat, i: nat, ghost e: Entry, ghost g: Geometry)
    returns (address: nat, length: nat, straddr: nat)
    requires chip.Valid() && g.Fits(chip.cells.Length) && maxFiles == g.maxFiles
    requires i < maxFiles && HoldsInfo(chip.cells[..], g, i, e)
    modifies chip`busy, chip`pending
    ensures chip.Valid()
    ensures address == e.address && length == e.length && straddr == e.strAt
  {
    assert 8 + maxFiles * 2 + i * 10 + 10 <= g.StringBase();
    ghost var img := chip.cells[..];
    var rec := chip.Read(8 + maxFiles * 2 + i * 10, 10);
    WordsShift(img, g.InfoAt(i), rec);
    address, length := Word32(rec, 0), Word32(rec, 4);
    straddr := 8 + maxFiles * 12 + Word16(rec, 8) * 4;
  }

  /** One slot of the search `open` makes; a slot of 0xFFFF ends it. */
  method Probe(chip: Chip, name: Name, hash: nat, slot: nat, j: nat, maxFiles: nat,
               ghost img: Image, ghost g: Geometry, ghost dir: seq<Entry>)
    returns (hit: bool, address: nat, length: nat)
    requires chip.Valid() && chip.cells[..] == img && Opens(img, g, dir)
    requires maxFiles == g.maxFiles && j < maxFiles && j <= |dir|
    requires hash == FilenameHash(name)
    requires slot == Word16(img, g.HashAt(j))
    modifies chip`busy, chip`pending
    ensures chip.Valid()
    ensures hit ==> j < |dir| && dir[j].live && dir[j].name == name
    ensures hit ==> address == dir[j].address && length == dir[j].length
    ensures !hit ==> (slot == 0xFFFF <==> j == |dir|)
    ensures !hit && j < |dir| ==> !(dir[j].live && dir[j].name == name)
  {
    hit, address, length := false, 0, 0;
    SlotMeaning(img, g, dir, j);
    if slot == hash {
      assert HoldsEntry(img, g, j, dir[j]) && HashRight(dir[j]);
      var straddr;
      address, length, straddr := ReadInfo(chip, maxFiles, j, dir[j], g);
      hit := FilenameCompare(chip, name, straddr, dir[j].name);
    }
  }

  ghost predicate NotAmongFirst(dir: seq<Entry>, k: nat, name: Name)
  {
    k <= |dir| && forall j :: 0 <= j < k ==> !(dir[j].live && dir[j].name == name)
  }

  lemma NotAmongNext(dir: seq<Entry>, k: nat, name: Name)
    requires NotAmongFirst(dir, k, name) && k < |dir|
    requires !(dir[k].live && dir[k].name == name)
    ensures NotAmongFirst(dir, k + 1, name)
  {
  }

  /** What a search has found out: a live entry of that name, or that there is none. */
  ghost predicate Outcome(dir: seq<Entry>, name: Name, hit: bool, at: nat, address: nat, length: nat)
  {
    if hit then
      && at < |dir| && dir[at].live && dir[at].name == name
      && address == dir[at].address && length == dir[at].length
    else NotAmongFirst(dir, |dir|, name)
  }

  /** One table of up to eight slots. */
  method SearchTable(chip: Chip, name: Name, hash: nat, maxFiles: nat, start: nat, n: nat,
                     ghost img: Image, ghost g: Geometry, ghost dir: seq<Entry>)
    returns (done: bool, hit: bool, at: nat, address: nat, length: nat)
    requires chip.Valid() && chip.cells[..] == img && Opens(img, g, dir)
    requires maxFiles == g.maxFiles && 0 < n && start + n <= maxFiles
    requires hash == FilenameHash(name) && NotAmongFirst(dir, start, name)
    modifies chip`busy, chip`pending
    ensures chip.Valid()
    ensures done ==> Outcome(dir, name, hit, at, address, length)
    ensures !done ==> !hit && at == start + n && NotAmongFirst(dir, at, name)
  {
    done, hit, at, address, length := false, false, start, 0, 0;
    var table := ReadSlots(chip, start, n);
    for i := 0 to n
      invariant chip.Valid() && chip.cells[..] == img
      invariant at == start + i && NotAmongFirst(dir, at, name) && !done && !hit
    {
      hit, address, length := Probe(chip, name, hash, table[i], at, maxFiles, img, g, dir);
      if hit || table[i] == 0xFFFF {
        done := true;
        return;
      }
      NotAmongNext(dir, at, name);
      at := at + 1;
    }
  }

  /** The search `open` makes once the header is known: hash slots are read eight at a time,
      every entry whose hash matches is compared by name, and the first unused slot ends it. */
  method Search(chip: Chip, name: Name, maxFiles: nat, ghost g: Geometry, ghost dir: seq<Entry>)
    returns (hit: bool, at: nat, address: nat, length: nat)
    requires chip.Valid() && Opens(chip.cells[..], g, dir)
    requires maxFiles == g.maxFiles
    modifies chip`busy, chip`pending
    ensures chip.Valid()
    ensures Outcome(dir, name, hit, at, address, length)
  {
    ghost var img := chip.cells[..];
    var hash := HashName(name);
    hit, at, address, length := false, 0, 0, 0;
    var done := false;
    while !done && at < maxFiles
      invariant chip.Valid() && chip.cells[..] == img
      invariant done ==> Outcome(dir, name, hit, at, address, length)
      invariant !done ==> !hit && at <= maxFiles && NotAmongFirst(dir, at, name)
      decreases !done, maxFiles - at
    {
      var n := if 8 > maxFiles - at then maxFiles - at else 8;
      done, hit, at, address, length := SearchTable(chip, name, hash, maxFiles, at, n, img, g, dir);
    }
  }

  /** The first slot no create has used, or 0xFFFFFFFF if there is none. */
  method FindUnallocated(chip: Chip, maxFiles: nat, ghost g: Geometry, ghost dir: seq<Entry>)
    returns (r: nat)
    requires chip.Valid() && Opens(chip.cells[..], g, dir)
    requires maxFiles == g.maxFiles
    modifies chip`busy, chip`pending
    ensures chip.Valid()
    ensures r == if |dir| < maxFiles then |dir| else 0xFFFF_FFFF
  {
    ghost var img := chip.cells[..];
    var index := 0;
    while true
      invariant chip.Valid() && chip.cells[..] == img
      invariant index < maxFiles && index <= |dir|
      decreases maxFiles - index
    {
      var n := if index + 8 > maxFiles then maxFiles - index else 8;
      var table := ReadSlots(chip, index, n);
      for i := 0 to n
        invariant index + i <= |dir|
      {
        SlotMeaning(img, g, dir, index + i);
        if table[i] == 0xFFFF {
          return index + i;
        }
      }
      index := index + n;
      if !(index < maxFiles) {
        return 0xFFFF_FFFF;
      }
    }
  }

  /** Where the data and the name of the next entry would go. */
  method NextFree(chip: Chip, maxFiles: nat, stringSize: nat, index: nat, ghost g: Geometry, ghost dir: seq<Entry>)
    returns (end: nat, straddr: nat)
    requires chip.Valid() && g.Fits(chip.cells.Length)
    requires maxFiles == g.maxFiles && stringSize == g.strings && index == |dir| <= maxFiles
    requires dir != [] ==>
      && HoldsInfo(chip.cells[..], g, index - 1, dir[index - 1])
      && dir[index - 1].StrEnd() <= g.DataBase()
    modifies chip`busy, chip`pending
    ensures chip.Valid()
    ensures end == DataEnd(g, dir) && straddr == NextString(g, dir)
  {
    straddr := 8 + maxFiles * 12;
    if index == 0 {
      end := straddr + stringSize;
    } else {
      var len;
      end, straddr, len := LastEntry(chip, maxFiles, index, g, dir[index - 1]);
      straddr := (straddr + len + 3) % 0x4_0000 / 4 * 4;
    }
  }

  method LastEntry(chip: Chip, maxFiles: nat, index: nat, ghost g: Geometry, ghost last: Entry)
    returns (end: nat, straddr: nat, len: nat)
    requires chip.Valid() && g.Fits(chip.cells.Length) && maxFiles == g.maxFiles
    requires 0 < index <= maxFiles && HoldsInfo(chip.cells[..], g, index - 1, last)
    requires last.StrEnd() <= g.DataBase()
    modifies chip`busy, chip`pending
    ensures chip.Valid()
    ensures end == last.DataEnd() && straddr == last.strAt && len == |last.name| + 1
  {
    var address, length;
    address, length, straddr := ReadInfo(chip, maxFiles, index - 1, last, g);
    end := address + length;
    len := StringLength(chip, straddr, last.name);
  }

  // Listing.

  /** The first slot at or after `from` that is not zero. */
  method SkipDeleted(chip: Chip, from: nat, maxFiles: nat, ghost g: Geometry, ghost dir: seq<Entry>)
    returns (index: nat)
    requires chip.Valid() && Opens(chip.cells[..], g, dir) && maxFiles == g.maxFiles
    modifies chip`busy, chip`pending
    ensures chip.Valid()
    ensures from <= index && (forall j :: from <= j < index && j < |dir| ==> !dir[j].live)
    ensures index < |dir| ==> dir[index].live
  {
    hide HoldsEntry, Hashed, Ordered, Placed;
    ghost var img := chip.cells[..];
    index := from;
    while index < maxFiles
      invariant chip.Valid() && chip.cells[..] == img
      invariant from <= index && forall j :: from <= j < index && j < |dir| ==> !dir[j].live
    {
      var buf := chip.Read(8 + index * 2, 2);
      assert buf[0] == img[8 + 2 * index] && buf[1] == img[8 + 2 * index + 1];
      NonzeroSlot(img, g, dir, index);
      if Word16(buf, 0) != 0 {
        break;
      }
      index := index + 1;
    }
  }

  /** A slot is zero exactly when its entry was deleted. */
  lemma NonzeroSlot(img: Image, g: Geometry, dir: seq<Entry>, i: nat)
    requires Opens(img, g, dir) && i < g.maxFiles
    ensures Word16(img, g.HashAt(i)) == 0 <==> i < |dir| && !dir[i].live
  {
    if i <= |dir| {
      SlotMeaning(img, g, dir, i);
    } else {
      assert img[g.HashAt(i)] == BLANK;
    }
  }

  /** The size and name fields of an entry; an unused record has neither. */
  method ReadSizeAndName(chip: Chip, maxFiles: nat, index: nat, ghost g: Geometry, ghost dir: seq<Entry>)
    returns (r: bool, filesize: nat, straddr: nat)
    requires chip.Valid() && Committed(chip.cells[..], g, dir) && Spare(chip.cells[..], g, dir)
    requires maxFiles == g.maxFiles && index < maxFiles
    modifies chip`busy, chip`pending
    ensures chip.Valid()
    ensures r <==> index < |dir|
    ensures r ==>
      && filesize == dir[index].length && straddr == dir[index].strAt
      && HoldsText(chip.cells[..], straddr, dir[index].name)
      && straddr + |dir[index].name| + 16 <= chip.cells.Length
  {
    ghost var img := chip.cells[..];
    var at := 8 + 4 + maxFiles * 2 + index * 10;
    assert at == g.InfoAt(index) + 4 && at + 6 <= g.StringBase();
    var buf := chip.Read(at, 6);
    WordsOfSix(img, at, buf);
    SizeField(img, g, dir, index);
    filesize, straddr := Word32(buf, 0), 8 + maxFiles * 12 + Word16(buf, 4) * 4;
    r := filesize != 0xFFFF_FFFF;
  }

  lemma WordsOfSix(img: Image, at: nat, rec: seq<byte>)
    requires at + 6 <= |img| && rec == img[at..at + 6]
    ensures Word32(rec, 0) == Word32(img, at) && Word16(rec, 4) == Word16(img, at + 4)
  {
    assert rec[0] == img[at] && rec[1] == img[at + 1] && rec[2] == img[at + 2];
    assert rec[3] == img[at + 3] && rec[4] == img[at + 4] && rec[5] == img[at + 5];
  }

  lemma SizeField(img: Image, g: Geometry, dir: seq<Entry>, i: nat)
    requires Committed(img, g, dir) && Spare(img, g, dir) && i < g.maxFiles
    ensures Word32(img, g.InfoAt(i) + 4) == 0xFFFF_FFFF <==> i >= |dir|
    ensures i < |dir| ==>
      && HoldsInfo(img, g, i, dir[i]) && dir[i].StrEnd() + 15 <= |img|
      && Word32(img, g.InfoAt(i) + 4) == dir[i].length
      && g.StringBase() + 4 * Word16(img, g.InfoAt(i) + 8) == dir[i].strAt
  {
    if i < |dir| {
      assert HoldsEntry(img, g, i, dir[i]);
      assert Placed(g, dir[i], |img|);
    } else {
      var at := g.InfoAt(i) + 4;
      assert at + 4 <= g.StringBase() && g.InfoAt(|dir|) <= at;
      assert img[at] == BLANK && img[at + 1] == BLANK && img[at + 2] == BLANK && img[at + 3] == BLANK;
    }
  }

  /** Copies a stored name into a buffer, sixteen bytes at a time, cutting it off if it is too
      long. */
  method CopyName(chip: Chip, straddr: nat, strsize: nat, ghost stored: Name) returns (out: Name)
    requires chip.Valid() && strsize > 0
    requires HoldsText(chip.cells[..], straddr, stored)
    requires straddr + |stored| + 16 <= chip.cells.Length
    modifies chip`busy, chip`pending
    ensures chip.Valid()
    ensures out == if |stored| < strsize then stored else stored[..strsize - 1]
  {
    hide HoldsText;
    ghost var img := chip.cells[..];
    out := [];
    var left := strsize;
    while left > 0
      invariant chip.Valid() && chip.cells[..] == img
      invariant 0 <= left && |out| + left == strsize
      invariant |out| <= |stored| && out == stored[..|out|]
    {
      var n := if left > 16 then 16 else left;
      var str := chip.Read(straddr + |out|, n);
      TextAt(img, straddr, stored, |out|, str);
      var over;
      out, over := CopySome(out, str, stored);
      if over {
        return;
      }
      left := left - n;
    }
    out := out[..|out| - 1];
  }

  lemma TextAt(img: Image, at: nat, name: Name, k: nat, str: seq<byte>)
    requires HoldsText(img, at, name) && at + k + |str| <= |img| && str == img[at + k..at + k + |str|]
    ensures forall i :: 0 <= i < |str| && k + i <= |name| ==> str[i] == if k + i < |name| then name[k + i] else 0
  {
    forall i | 0 <= i < |str| && k + i <= |name|
      ensures str[i] == if k + i < |name| then name[k + i] else 0
    {
      assert str[i] == img[at + (k + i)];
    }
  }

  /** Appends bytes up to the terminator, if it is among them. */
  method CopySome(start: Name, str: seq<byte>, ghost stored: Name) returns (out: Name, over: bool)
    requires |start| <= |stored| && start == stored[..|start|]
    requires forall i :: 0 <= i < |str| && |start| + i <= |stored| ==>
      str[i] == if |start| + i < |stored| then stored[|start| + i] else 0
    ensures over ==> out == stored && |stored| < |start| + |str|
    ensures !over ==> |out| == |start| + |str| <= |stored| && out == stored[..|out|]
  {
    out, over := start, false;
    for i := 0 to |str|
      invariant |out| == |start| + i <= |stored| && out == stored[..|out|]
    {
      if str[i] == 0 {
        return out, true;
      }
      assert stored[..|out| + 1] == stored[..|out|] + [str[i]];
      out := out + [str[i]];
    }
  }
}
