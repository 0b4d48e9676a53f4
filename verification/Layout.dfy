// The on-chip directory as data: where the header, hash slots, info records and names lie,
// what it means for an image to hold a given list of entries, and what each program
// command of the store does to that meaning.
module Layout {
  import opened Bytes
  import opened Chip

  const SIGNATURE := 0xFA96_554C
  const U32 := 0x1_0000_0000

  /** A C string without its terminator. */
  type Name = s: seq<byte> | forall k :: 0 <= k < |s| ==> s[k] != 0

  /** The 32-bit FNV-1a hash of the first `k` bytes. */
  function Fnv(name: seq<byte>, k: nat): (h: nat)
    requires k <= |name|
    ensures h < U32
  {
    if k == 0 then 2166136261
    else
      var h := Fnv(name, k - 1);
      ((h - h % 256 + Xor8(h % 256, name[k - 1])) * 16777619) % U32
  }

  /** The hash stored for a name: never 0 (deleted) and never 0xFFFF (unused). */
  function FilenameHash(name: seq<byte>): (h: nat)
    ensures 0 < h < 0xFFFF
  {
    Fnv(name, |name|) % 0xFFFE + 1
  }

  /** Published values of FNV-1a, for nothing and for "a". */
  lemma FnvValues()
    ensures Fnv([], 0) == 0x811C_9DC5 && Fnv([97], 1) == 0xE40C_292C
  {
    assert Fnv([97], 0) == 0x811C_9DC5;
    assert 0x811C_9DC5 % 256 == 0xC5;
    assert XorBits(12, 6, 4) == 10;
    assert XorBits(197 / 4, 97 / 4, 6) == XorBits(49, 24, 6);
    assert Xor8(0xC5, 97) == 0xA4;
  }

  datatype Geometry = Geometry(maxFiles: nat, strings: nat)
  {
    function HashAt(i: nat): nat { 8 + 2 * i }
    function InfoAt(i: nat): nat { 8 + 2 * maxFiles + 10 * i }
    function StringBase(): nat { 8 + 12 * maxFiles }
    function DataBase(): nat { StringBase() + strings }

    /** The directory fits the chip, its fields fit their words, and the 18-bit mask on
        string addresses loses nothing. */
    predicate Fits(capacity: nat)
    {
      && 1 <= maxFiles < 0x1_0000
      && strings % 4 == 0 && strings / 4 < 0x1_0000
      && DataBase() + 4 <= 0x4_0000
      && DataBase() + 16 <= capacity < U32
    }
  }

  const DEFAULT := Geometry(600, 25560)

  datatype Entry = Entry(name: Name, hash: nat, strAt: nat, address: nat, length: nat, align: nat, live: bool)
  {
    function StrEnd(): nat { strAt + |name| + 1 }
    function DataEnd(): nat { address + length }
  }

  // What an image says.

  ghost predicate HoldsText(img: Image, at: nat, name: Name)
  {
    && at + |name| < |img|
    && (forall k :: 0 <= k < |name| ==> img[at + k] == name[k])
    && img[at + |name|] == 0
  }

  ghost predicate HoldsHeader(img: Image, g: Geometry)
    requires |img| >= 8
  {
    && Word32(img, 0) == SIGNATURE
    && Word16(img, 4) == g.maxFiles
    && Word16(img, 6) * 4 == g.strings
  }

  ghost predicate HoldsInfo(img: Image, g: Geometry, i: nat, e: Entry)
    requires g.Fits(|img|) && i < g.maxFiles
  {
    && Word32(img, g.InfoAt(i)) == e.address
    && Word32(img, g.InfoAt(i) + 4) == e.length
    && g.StringBase() + 4 * Word16(img, g.InfoAt(i) + 8) == e.strAt
    && HoldsText(img, e.strAt, e.name)
  }

  ghost predicate HoldsEntry(img: Image, g: Geometry, i: nat, e: Entry)
    requires g.Fits(|img|) && i < g.maxFiles
  {
    && Word16(img, g.HashAt(i)) == (if e.live then e.hash else 0)
    && HoldsInfo(img, g, i, e)
  }

  // What a list of entries must satisfy on its own.

  ghost predicate Aligned(e: Entry)
  {
    if e.align == 0 then e.address % PAGE == 0
    else e.address % e.align == 0 && e.length % e.align == 0
  }

  /** An entry's name lies in the name area and its data above it, inside the chip. */
  ghost predicate Placed(g: Geometry, e: Entry, capacity: nat)
  {
    && g.StringBase() <= e.strAt && e.strAt % 4 == 0 && e.StrEnd() <= g.DataBase()
    && g.DataBase() <= e.address && e.DataEnd() <= capacity && Aligned(e)
  }

  /** What an entry owns lies below everything a later entry owns, and live names differ. */
  ghost predicate Before(d: Entry, e: Entry)
  {
    && d.StrEnd() <= e.strAt && d.DataEnd() <= e.address
    && (d.live && e.live ==> d.name != e.name)
  }

  ghost predicate Ordered(dir: seq<Entry>)
  {
    forall i, j {:trigger Before(dir[i], dir[j])} :: 0 <= i < j < |dir| ==> Before(dir[i], dir[j])
  }

  ghost predicate HashRight(e: Entry)
  {
    e.hash == FilenameHash(e.name)
  }

  ghost predicate Hashed(dir: seq<Entry>)
  {
    forall i {:trigger HashRight(dir[i])} :: 0 <= i < |dir| ==> HashRight(dir[i])
  }

  /** Every range ever allocated, for a live or a deleted entry, is aligned, above the names,
      inside the chip, and disjoint from every other. */
  ghost predicate Laid(g: Geometry, dir: seq<Entry>, capacity: nat)
  {
    && g.Fits(capacity)
    && |dir| <= g.maxFiles
    && (forall i :: 0 <= i < |dir| ==> Placed(g, dir[i], capacity))
    && Ordered(dir)
  }

  /** Two entries, whether live or deleted, share no byte of data and no byte of name. */
  lemma RangesDisjoint(g: Geometry, dir: seq<Entry>, capacity: nat, i: nat, j: nat)
    requires Laid(g, dir, capacity) && i < j < |dir|
    ensures g.StringBase() <= dir[i].strAt && dir[i].StrEnd() <= dir[j].strAt && dir[j].StrEnd() <= g.DataBase()
    ensures g.DataBase() <= dir[i].address && dir[i].DataEnd() <= dir[j].address && dir[j].DataEnd() <= capacity
    ensures Aligned(dir[i]) && Aligned(dir[j])
  {
    assert Before(dir[i], dir[j]);
  }

  function NamesEnd(g: Geometry, dir: seq<Entry>): nat
  {
    if dir == [] then g.StringBase() else dir[|dir| - 1].StrEnd()
  }

  function DataEnd(g: Geometry, dir: seq<Entry>): nat
  {
    if dir == [] then g.DataBase() else dir[|dir| - 1].DataEnd()
  }

  /** The image's directory reads as exactly these entries. */
  ghost predicate Committed(img: Image, g: Geometry, dir: seq<Entry>)
  {
    && Laid(g, dir, |img|)
    && HoldsHeader(img, g)
    && (forall i {:trigger HoldsEntry(img, g, i, dir[i])} :: 0 <= i < |dir| ==> HoldsEntry(img, g, i, dir[i]))
    && IsBlank(img, g.HashAt(|dir|), g.HashAt(g.maxFiles))
  }

  /** Everything the next entry will be programmed over is still blank. */
  ghost predicate Spare(img: Image, g: Geometry, dir: seq<Entry>)
    requires Laid(g, dir, |img|)
  {
    && IsBlank(img, g.InfoAt(|dir|), g.StringBase())
    && IsBlank(img, NamesEnd(g, dir), g.DataBase())
    && IsBlank(img, DataEnd(g, dir), |img|)
  }

  /** The bytes of entry `e`. */
  function Contents(img: Image, e: Entry): seq<byte>
    requires e.DataEnd() <= |img|
  {
    img[e.address..e.DataEnd()]
  }

  // The map a directory stands for.

  /** The index of the live entry called `name`, or -1. */
  ghost function Find(dir: seq<Entry>, name: Name): (r: int)
    ensures -1 <= r < |dir|
    ensures r >= 0 ==> dir[r].live && dir[r].name == name
    ensures r < 0 ==> forall i :: 0 <= i < |dir| ==> !(dir[i].live && dir[i].name == name)
  {
    if dir == [] then -1
    else if dir[|dir| - 1].live && dir[|dir| - 1].name == name then |dir| - 1
    else Find(dir[..|dir| - 1], name)
  }

  /** Live names differ, so a live entry is the one its name finds. */
  lemma FindLive(dir: seq<Entry>, i: nat)
    requires Ordered(dir)
    requires i < |dir| && dir[i].live
    ensures Find(dir, dir[i].name) == i
  {
    var r := Find(dir, dir[i].name);
    assert r >= 0 && dir[r].live && dir[r].name == dir[i].name;
    assert r < i ==> Before(dir[r], dir[i]);
    assert i < r ==> Before(dir[i], dir[r]);
  }

  /** The store as its users see it: the live names and the bytes each one holds. */
  ghost function Files(img: Image, dir: seq<Entry>): map<Name, seq<byte>>
    requires forall i :: 0 <= i < |dir| ==> dir[i].DataEnd() <= |img|
  {
    if dir == [] then map[]
    else
      var e := dir[|dir| - 1];
      var older := Files(img, dir[..|dir| - 1]);
      if e.live then older[e.name := Contents(img, e)] else older
  }

  // What stays true when an image changes somewhere else.

  ghost predicate Agree(a: Image, b: Image, lo: nat, hi: nat)
  {
    |a| == |b| && forall i :: lo <= i < hi && i < |a| ==> a[i] == b[i]
  }

  lemma InfoFrame(a: Image, b: Image, g: Geometry, i: nat, e: Entry)
    requires g.Fits(|a|) && i < g.maxFiles && HoldsInfo(a, g, i, e)
    requires Agree(a, b, g.InfoAt(i), g.InfoAt(i) + 10)
    requires Agree(a, b, e.strAt, e.StrEnd())
    ensures HoldsInfo(b, g, i, e)
  {
    assert g.InfoAt(i) + 10 <= g.StringBase();
  }

  /** The directory of `dir` survives any change that spares its header, hash slots, info
      records and names. */
  lemma CommittedFrame(a: Image, b: Image, g: Geometry, dir: seq<Entry>)
    requires Committed(a, g, dir)
    requires Agree(a, b, 0, g.InfoAt(|dir|))
    requires Agree(a, b, g.StringBase(), NamesEnd(g, dir))
    ensures Committed(b, g, dir)
  {
    forall i | 0 <= i < |dir|
      ensures HoldsEntry(b, g, i, dir[i])
    {
      assert HoldsEntry(a, g, i, dir[i]);
      assert i < |dir| - 1 ==> Before(dir[i], dir[|dir| - 1]);
      assert dir[i].StrEnd() <= NamesEnd(g, dir);
      InfoFrame(a, b, g, i, dir[i]);
    }
  }
}
