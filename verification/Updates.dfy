// How the store's operations move from one image and list of entries to the next: where a
// new file is placed, what its three programs leave behind, and what a removal and a write
// to file data keep.
module Updates {
  import opened Bytes
  import opened Chip
  import opened Layout

  // Placement, in the 32-bit arithmetic of the code.

  /** A sum of two 32-bit words, as the code's registers hold it. */
  function Wrap(sum: nat): (r: nat)
    requires sum < 2 * U32
    ensures r < U32 && r == if sum < U32 then sum else sum - U32
  {
    sum % U32
  }

  /** The largest multiple of `a` that is at most `x`. */
  function RoundDown(x: nat, a: nat): (r: nat)
    requires a > 0
    ensures r <= x < r + a
  {
    if x < a then 0 else a + RoundDown(x - a, a)
  }

  /** It is what `x /= a; x *= a` leaves. */
  lemma {:induction false} DivideMultiply(x: nat, a: nat)
    requires a > 0
    ensures x / a * a == RoundDown(x, a)
  {
    if x >= a {
      DivideMultiply(x - a, a);
      DivideStep(x - a, a);
      OnceMore((x - a) / a, a);
    }
  }

  lemma OnceMore(q: nat, a: nat)
    ensures (q + 1) * a == q * a + a
  {
  }

  lemma DivideStep(y: nat, a: nat)
    requires a > 0
    ensures (y + a) / a == y / a + 1
  {
    var q, r := y / a, y % a;
    assert y + a == a * (q + 1) + r;
    var d := (y + a) / a - (q + 1);
    assert a * d == r - (y + a) % a;
    assert d >= 1 ==> a * d >= a;
    assert d <= -1 ==> a * d <= -1 * a;
  }

  lemma {:induction false} RoundDownMultiple(x: nat, a: nat)
    requires a > 0
    ensures RoundDown(x, a) % a == 0
  {
    if x >= a {
      RoundDownMultiple(x - a, a);
      MultipleMore(RoundDown(x - a, a), a);
    }
  }

  lemma MultipleMore(y: nat, a: nat)
    requires a > 0 && y % a == 0
    ensures (y + a) % a == 0
  {
    DivideStep(y, a);
    var q := y / a;
    assert y == a * q && a * (q + 1) == a * q + a;
    assert y + a == a * ((y + a) / a) + (y + a) % a;
  }

  function Place(end: nat, length: nat, align: nat): (r: (nat, nat))
    requires end < U32 && length < U32 && align < U32
    ensures r.0 < U32 && r.1 < U32
  {
    if align > 0 then
      (RoundDown(Wrap(end + align - 1), align), RoundDown(Wrap(length + align - 1), align))
    else
      (RoundDown(Wrap(end + 255), PAGE), length)
  }

  /** The code's last check before it programs anything. */
  predicate Accepted(end: nat, length: nat, align: nat, capacity: nat)
    requires end < U32 && length < U32 && align < U32
  {
    var p := Place(end, length, align);
    Wrap(p.0 + p.1) <= capacity
  }

  /** None of the three sums wraps. */
  predicate NoWrap(end: nat, length: nat, align: nat)
    requires end < U32 && length < U32 && align < U32
  {
    var p := Place(end, length, align);
    && end + (if align > 0 then align - 1 else 255) < U32
    && (align > 0 ==> length + align - 1 < U32)
    && p.0 + p.1 < U32
  }

  /** The range handed out holds what was asked for, past everything allocated before. */
  predicate Sound(end: nat, length: nat, align: nat, capacity: nat)
    requires end < U32 && length < U32 && align < U32
  {
    var p := Place(end, length, align);
    end <= p.0 && length <= p.1 && p.0 + p.1 <= capacity
  }

  /** The capacity check alone does not make a placement sound: it does exactly when no sum
      wraps, which a caller can tell beforehand. */
  lemma PlacementExact(end: nat, length: nat, align: nat, capacity: nat)
    requires end <= capacity < U32 && length < U32 && align < U32
    requires Accepted(end, length, align, capacity)
    ensures Sound(end, length, align, capacity) <==> NoWrap(end, length, align)
  {
  }

  lemma PlacementAligned(end: nat, length: nat, align: nat)
    requires end < U32 && length < U32 && align < U32
    ensures var p := Place(end, length, align);
            if align > 0 then p.0 % align == 0 && p.1 % align == 0 else p.0 % PAGE == 0
  {
    if align > 0 {
      RoundDownMultiple(Wrap(end + align - 1), align);
      RoundDownMultiple(Wrap(length + align - 1), align);
    } else {
      RoundDownMultiple(Wrap(end + 255), PAGE);
    }
  }

  // The entry a create adds.

  function NextString(g: Geometry, dir: seq<Entry>): nat
  {
    if dir == [] then g.StringBase() else (dir[|dir| - 1].StrEnd() + 3) % 0x4_0000 / 4 * 4
  }

  function NewEntry(g: Geometry, dir: seq<Entry>, name: Name, hash: nat, length: nat, align: nat): Entry
    requires DataEnd(g, dir) < U32 && length < U32 && align < U32
  {
    var p := Place(DataEnd(g, dir), length, align);
    Entry(name, hash, NextString(g, dir), p.0, p.1, align, true)
  }

  /** A request that the capacity check lets through although its range leaves the chip, and after
      which the next file is placed inside the first one. */
  lemma WrappedPlacementOverlaps()
    ensures var g, capacity, first := DEFAULT, 0x10_0000, Entry([97], 1, 7208, 0x8000, 0x1000, 0, true);
      && Laid(g, [first], capacity) && DataEnd(g, [first]) == 0x9000
      && Accepted(0x9000, 0xFFFF_FF00, 0, capacity)
      && (var e := NewEntry(g, [first], [98], 2, 0xFFFF_FF00, 0);
          && !Laid(g, [first, e], capacity)
          && Place(Wrap(e.address + e.length), 0x100, 0) == (0x8F00, 0x100)
          && first.address < 0x8F00 < first.DataEnd())
  {
    DivideMultiply(0x90FF, PAGE);
    DivideMultiply(0x8FFF, PAGE);
    assert Place(0x9000, 0xFFFF_FF00, 0) == (0x9000, 0xFFFF_FF00);
    var first := Entry([97], 1, 7208, 0x8000, 0x1000, 0, true);
    var e := NewEntry(DEFAULT, [first], [98], 2, 0xFFFF_FF00, 0);
    assert e.address + e.length == 0x1_0000_8F00;
    assert !Placed(DEFAULT, e, 0x10_0000);
    assert [first, e][1] == e;
  }

  /** What the code asks of a caller without checking it: room for the name, and sums that
      do not wrap. */
  ghost predicate Roomy(g: Geometry, dir: seq<Entry>, name: Name, length: nat, align: nat)
    requires DataEnd(g, dir) < U32 && length < U32 && align < U32
  {
    && NextString(g, dir) + |name| + 1 <= g.DataBase()
    && NoWrap(DataEnd(g, dir), length, align)
  }

  /** An entry for a file of this name and length: as long as was asked for, up to the unit; at the
      first place that the unit allows after all data; and its name right after all names. */
  ghost predicate AsAsked(e: Entry, data: nat, names: nat, name: Name, length: nat, align: nat)
  {
    && e.name == name && e.live && e.align == align
    && (align == 0 ==> e.length == length && e.address % 256 == 0 && data <= e.address < data + 256)
    && (align > 0 ==>
          && length <= e.length < length + align && e.length % align == 0
          && data <= e.address < data + align && e.address % align == 0)
    && names <= e.strAt < names + 4 && e.strAt % 4 == 0
  }

  /** Where no sum wraps, a new entry is as was asked. */
  lemma NewEntryAsAsked(g: Geometry, dir: seq<Entry>, name: Name, hash: nat, length: nat, align: nat, capacity: nat)
    requires Laid(g, dir, capacity) && DataEnd(g, dir) < U32 && length < U32 && align < U32
    requires NoWrap(DataEnd(g, dir), length, align)
    ensures AsAsked(NewEntry(g, dir, name, hash, length, align), DataEnd(g, dir), NamesEnd(g, dir), name, length, align)
  {
    PlacementAligned(DataEnd(g, dir), length, align);
    NextStringPast(g, dir, capacity);
    NextStringNear(g, dir, capacity);
  }

  lemma NextStringNear(g: Geometry, dir: seq<Entry>, capacity: nat)
    requires Laid(g, dir, capacity)
    ensures NextString(g, dir) < NamesEnd(g, dir) + 4
  {
    if dir != [] {
      assert dir[|dir| - 1].StrEnd() + 3 < 0x4_0000;
    }
  }

  /** No sum wraps where end and length, each with a unit to spare, do not come to 2^32. */
  lemma NoWrapNear(end: nat, length: nat, align: nat)
    requires end + length + 2 * (if align > 0 then align else 256) <= U32
    ensures length < U32 && align < U32 && end < U32 && NoWrap(end, length, align)
  {
  }

  lemma NextStringPast(g: Geometry, dir: seq<Entry>, capacity: nat)
    requires Laid(g, dir, capacity)
    ensures NamesEnd(g, dir) <= NextString(g, dir) && NextString(g, dir) % 4 == 0
  {
    if dir != [] {
      var x := dir[|dir| - 1].StrEnd() + 3;
      assert x < 0x4_0000;
    }
  }

  /** A list of entries stays laid out when an entry past its end is added. */
  lemma LaidExtended(g: Geometry, dir: seq<Entry>, e: Entry, capacity: nat)
    requires Laid(g, dir, capacity) && |dir| < g.maxFiles
    requires NamesEnd(g, dir) <= e.strAt && e.strAt % 4 == 0 && e.StrEnd() <= g.DataBase()
    requires DataEnd(g, dir) <= e.address && e.DataEnd() <= capacity && Aligned(e)
    requires Find(dir, e.name) < 0
    ensures Laid(g, dir + [e], capacity)
  {
    var dir' := dir + [e];
    DataEndInside(g, dir, capacity);
    forall i, j | 0 <= i < j < |dir'|
      ensures Before(dir'[i], dir'[j])
    {
      assert dir'[i] == dir[i];
      if j < |dir| {
        assert Before(dir[i], dir[j]);
      }
    }
  }

  lemma NewEntryNext(g: Geometry, dir: seq<Entry>, name: Name, hash: nat, length: nat, align: nat, capacity: nat)
    requires Laid(g, dir, capacity) && |dir| < g.maxFiles
    requires DataEnd(g, dir) <= capacity && length < U32 && align < U32
    requires Roomy(g, dir, name, length, align)
    requires Accepted(DataEnd(g, dir), length, align, capacity)
    requires Find(dir, name) < 0
    ensures Next(g, dir, NewEntry(g, dir, name, hash, length, align), capacity)
  {
    var e := NewEntry(g, dir, name, hash, length, align);
    NextStringPast(g, dir, capacity);
    PlacementExact(DataEnd(g, dir), length, align, capacity);
    PlacementAligned(DataEnd(g, dir), length, align);
    LaidExtended(g, dir, e, capacity);
  }

  /** An accepted create keeps the directory laid out and hands out what was asked for if and only if
      the caller saw to room for the name and to sums that do not wrap. */
  lemma LaidExactly(g: Geometry, dir: seq<Entry>, name: Name, hash: nat, length: nat, align: nat, capacity: nat)
    requires Laid(g, dir, capacity) && |dir| < g.maxFiles && Find(dir, name) < 0
    requires DataEnd(g, dir) <= capacity && length < U32 && align < U32
    requires Accepted(DataEnd(g, dir), length, align, capacity)
    ensures var e := NewEntry(g, dir, name, hash, length, align);
      Laid(g, dir + [e], capacity) && length <= e.length <==> Roomy(g, dir, name, length, align)
  {
    hide NextString, Accepted, NoWrap, Place;
    var e, end := NewEntry(g, dir, name, hash, length, align), DataEnd(g, dir);
    PlacementExact(end, length, align, capacity);
    if Roomy(g, dir, name, length, align) {
      NewEntryNext(g, dir, name, hash, length, align, capacity);
    } else if Laid(g, dir + [e], capacity) {
      assert (dir + [e])[|dir|] == e && Placed(g, e, capacity);
      assert dir != [] ==> Before((dir + [e])[|dir| - 1], (dir + [e])[|dir|]);
    }
  }

  lemma DataEndInside(g: Geometry, dir: seq<Entry>, capacity: nat)
    requires Laid(g, dir, capacity)
    ensures DataEnd(g, dir) <= capacity
    ensures NamesEnd(g, dir) <= g.DataBase() <= DataEnd(g, dir)
    ensures forall i :: 0 <= i < |dir| ==> dir[i].DataEnd() <= DataEnd(g, dir)
    ensures forall i :: 0 <= i < |dir| ==> dir[i].StrEnd() <= NamesEnd(g, dir)
  {
    forall i | 0 <= i < |dir|
      ensures dir[i].DataEnd() <= DataEnd(g, dir) && dir[i].StrEnd() <= NamesEnd(g, dir)
    {
      assert i < |dir| - 1 ==> Before(dir[i], dir[|dir| - 1]);
    }
  }

  /** The ten bytes of an info record. */
  ghost predicate IsRecord(r: seq<byte>, address: nat, length: nat, index: nat)
  {
    |r| == 10 && Word32(r, 0) == address && Word32(r, 4) == length && Word16(r, 8) == index
  }

  /** A new entry that is laid out after `dir` and not yet programmed. */
  ghost predicate Next(g: Geometry, dir: seq<Entry>, e: Entry, capacity: nat)
  {
    && |dir| < g.maxFiles && e.live
    && Laid(g, dir, capacity) && Laid(g, dir + [e], capacity)
    && NamesEnd(g, dir) <= e.strAt
    && DataEnd(g, dir) <= e.address
  }

  lemma NextBounds(g: Geometry, dir: seq<Entry>, e: Entry, capacity: nat)
    requires Next(g, dir, e, capacity)
    ensures g.StringBase() <= e.strAt && e.StrEnd() <= g.DataBase() <= e.address
    ensures e.DataEnd() <= capacity < U32
    ensures (e.strAt - g.StringBase()) / 4 < 0x1_0000
    ensures g.StringBase() + 4 * ((e.strAt - g.StringBase()) / 4) == e.strAt
  {
    assert (dir + [e])[|dir|] == e;
    StringIndex(g, e.strAt);
  }

  /** A string address survives being stored as an index in words. */
  lemma StringIndex(g: Geometry, at: nat)
    requires g.StringBase() <= at && at % 4 == 0
    ensures g.StringBase() + 4 * ((at - g.StringBase()) / 4) == at
  {
    assert at == 4 * (at / 4);
    assert at - g.StringBase() == 4 * (at / 4 - 2 - 3 * g.maxFiles);
  }

  // The three programs of a create, in the order they are issued. Each starts from what the
  // one before it left.

  lemma TextStored(a: Image, b: Image, e: Entry)
    requires Stored(a, b, e.strAt, e.name + [0])
    ensures HoldsText(b, e.strAt, e.name)
  {
    var text := e.name + [0];
    assert text[|e.name|] == 0;
    forall k | 0 <= k < |e.name|
      ensures b[e.strAt + k] == e.name[k]
    {
      assert text[k] == e.name[k];
    }
  }

  lemma InfoStored(a: Image, b: Image, g: Geometry, dir: seq<Entry>, e: Entry, rec: seq<byte>)
    requires Next(g, dir, e, |a|)
    requires HoldsText(a, e.strAt, e.name)
    requires IsRecord(rec, e.address, e.length, (e.strAt - g.StringBase()) / 4)
    requires Stored(a, b, g.InfoAt(|dir|), rec)
    ensures HoldsInfo(b, g, |dir|, e)
  {
    NextBounds(g, dir, e, |a|);
    assert g.InfoAt(|dir|) + 10 <= g.StringBase();
    WordsShift(b, g.InfoAt(|dir|), rec);
  }

  lemma WordsShift(img: Image, at: nat, rec: seq<byte>)
    requires |rec| == 10 && at + 10 <= |img|
    requires forall k :: 0 <= k < 10 ==> img[at + k] == rec[k]
    ensures Word32(img, at) == Word32(rec, 0)
    ensures Word32(img, at + 4) == Word32(rec, 4)
    ensures Word16(img, at + 8) == Word16(rec, 8)
  {
    assert rec[0] == img[at] && rec[1] == img[at + 1] && rec[2] == img[at + 2] && rec[3] == img[at + 3];
    assert rec[4] == img[at + 4] && rec[5] == img[at + 5] && rec[6] == img[at + 6] && rec[7] == img[at + 7];
    assert rec[8] == img[at + 8] && rec[9] == img[at + 9];
  }

  lemma HashStored(a: Image, b: Image, g: Geometry, dir: seq<Entry>, e: Entry, slot: seq<byte>)
    requires Committed(a, g, dir) && Next(g, dir, e, |a|)
    requires HoldsInfo(a, g, |dir|, e)
    requires |slot| == 2 && Word16(slot, 0) == e.hash
    requires Stored(a, b, g.HashAt(|dir|), slot)
    ensures Committed(b, g, dir + [e])
  {
    hide HoldsInfo, Ordered, Placed;
    var n, at := |dir|, g.HashAt(|dir|);
    assert at + 2 <= g.InfoAt(0);
    NextBounds(g, dir, e, |a|);
    HashKeeps(a, b, g, dir, at);
    InfoFrame(a, b, g, n, e);
    assert slot[0] == b[at + 0] && slot[1] == b[at + 1];
    Extended(b, g, dir, e);
  }

  lemma Extended(b: Image, g: Geometry, dir: seq<Entry>, e: Entry)
    requires |dir| < g.maxFiles && Laid(g, dir + [e], |b|)
    requires HoldsHeader(b, g)
    requires forall i :: 0 <= i < |dir| ==> HoldsEntry(b, g, i, dir[i])
    requires HoldsEntry(b, g, |dir|, e)
    requires IsBlank(b, g.HashAt(|dir| + 1), g.HashAt(g.maxFiles))
    ensures Committed(b, g, dir + [e])
  {
    assert |dir + [e]| == |dir| + 1;
  }

  lemma HashKeeps(a: Image, b: Image, g: Geometry, dir: seq<Entry>, at: nat)
    requires Laid(g, dir, |a|)
    requires forall i :: 0 <= i < |dir| ==> HoldsEntry(a, g, i, dir[i])
    requires g.HashAt(|dir|) <= at <= g.InfoAt(0) - 2
    requires SameOutside(a, b, at, at + 2)
    ensures forall i :: 0 <= i < |dir| ==> HoldsEntry(b, g, i, dir[i])
  {
    forall i | 0 <= i < |dir|
      ensures HoldsEntry(b, g, i, dir[i])
    {
      assert g.InfoAt(i) + 10 <= g.StringBase();
      InfoFrame(a, b, g, i, dir[i]);
      assert Word16(b, g.HashAt(i)) == Word16(a, g.HashAt(i));
    }
  }
}
