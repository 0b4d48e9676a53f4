// What each operation does to the map of files the directory stands for.
module Effects {
  import opened Bytes
  import opened Chip
  import opened Layout
  import opened Updates

  ghost predicate InRange(img: Image, dir: seq<Entry>)
  {
    forall i :: 0 <= i < |dir| ==> dir[i].DataEnd() <= |img|
  }

  /** The map holds exactly the names that can be found, each with its entry's bytes. */
  lemma {:induction false} FilesFind(img: Image, dir: seq<Entry>, name: Name)
    requires InRange(img, dir)
    ensures name in Files(img, dir) <==> Find(dir, name) >= 0
    ensures name in Files(img, dir) ==> Files(img, dir)[name] == Contents(img, dir[Find(dir, name)])
  {
    if dir != [] {
      FilesFind(img, dir[..|dir| - 1], name);
    }
  }

  lemma ContentsFrame(a: Image, b: Image, e: Entry)
    requires e.DataEnd() <= |a| && Agree(a, b, e.address, e.DataEnd())
    ensures Contents(b, e) == Contents(a, e)
  {
  }

  lemma {:induction false} FilesFrame(a: Image, b: Image, dir: seq<Entry>)
    requires InRange(a, dir) && InRange(b, dir)
    requires forall i :: 0 <= i < |dir| ==> Contents(b, dir[i]) == Contents(a, dir[i])
    ensures Files(b, dir) == Files(a, dir)
  {
    if dir != [] {
      FilesFrame(a, b, dir[..|dir| - 1]);
    }
  }

  /** Creating adds the new name and leaves every other file as it was. */
  lemma FilesCreated(a: Image, b: Image, dir: seq<Entry>, e: Entry)
    requires InRange(a, dir) && InRange(b, dir) && e.DataEnd() <= |b|
    requires e.live
    requires forall i :: 0 <= i < |dir| ==> Contents(b, dir[i]) == Contents(a, dir[i])
    ensures Files(b, dir + [e]) == Files(a, dir)[e.name := Contents(b, e)]
  {
    FilesFrame(a, b, dir);
    assert (dir + [e])[..|dir|] == dir;
  }

  function Deleted(dir: seq<Entry>, i: nat): seq<Entry>
    requires i < |dir|
  {
    dir[i := dir[i].(live := false)]
  }

  lemma OrderedPrefix(dir: seq<Entry>, n: nat)
    requires Ordered(dir) && n <= |dir|
    ensures Ordered(dir[..n])
  {
    forall i, j | 0 <= i < j < n
      ensures Before(dir[..n][i], dir[..n][j])
    {
      assert Before(dir[i], dir[j]);
    }
  }

  /** Removing takes the one name away and leaves every other file as it was. */
  lemma {:induction false} FilesRemoved(img: Image, dir: seq<Entry>, i: nat)
    requires InRange(img, dir) && Ordered(dir)
    requires i < |dir| && dir[i].live
    ensures Files(img, Deleted(dir, i)) == Files(img, dir) - {dir[i].name}
  {
    var n := |dir| - 1;
    var older := dir[..n];
    if i == n {
      assert Deleted(dir, i)[..n] == older;
      FilesFind(img, older, dir[i].name);
      var k := Find(older, dir[i].name);
      assert k >= 0 ==> Before(dir[k], dir[i]);
    } else {
      OrderedPrefix(dir, n);
      assert Before(dir[i], dir[n]);
      assert Deleted(dir, i)[..n] == Deleted(older, i);
      FilesRemoved(img, older, i);
    }
  }

  /** Changing one entry's bytes changes that file, if it is live, and no other. */
  lemma {:induction false} FilesWritten(a: Image, b: Image, dir: seq<Entry>, i: nat)
    requires InRange(a, dir) && InRange(b, dir) && Ordered(dir)
    requires i < |dir|
    requires forall j :: 0 <= j < |dir| && j != i ==> Contents(b, dir[j]) == Contents(a, dir[j])
    ensures Files(b, dir) == if dir[i].live then Files(a, dir)[dir[i].name := Contents(b, dir[i])]
                             else Files(a, dir)
  {
    var n := |dir| - 1;
    var older := dir[..n];
    if i == n {
      FilesFrame(a, b, older);
    } else {
      OrderedPrefix(dir, n);
      assert Before(dir[i], dir[n]);
      FilesWritten(a, b, older, i);
    }
  }

  /** Zeroing its hash slot is all it takes to delete an entry. */
  lemma SlotZeroed(a: Image, b: Image, g: Geometry, dir: seq<Entry>, i: nat)
    requires Committed(a, g, dir) && i < |dir|
    requires SameOutside(a, b, g.HashAt(i), g.HashAt(i) + 2)
    requires Word16(b, g.HashAt(i)) == 0
    ensures Committed(b, g, Deleted(dir, i))
  {
    assert g.HashAt(i) + 2 <= g.HashAt(|dir|) <= g.InfoAt(0) <= g.StringBase();
    LaidDeleted(g, dir, i, |a|);
    forall j | 0 <= j < |dir|
      ensures HoldsEntry(b, g, j, Deleted(dir, i)[j])
    {
      EntryAfterDelete(a, b, g, i, j, dir[j]);
    }
  }

  lemma EntryAfterDelete(a: Image, b: Image, g: Geometry, i: nat, j: nat, e: Entry)
    requires g.Fits(|a|) && i < g.maxFiles && j < g.maxFiles
    requires HoldsEntry(a, g, j, e) && g.StringBase() <= e.strAt
    requires SameOutside(a, b, g.HashAt(i), g.HashAt(i) + 2)
    requires Word16(b, g.HashAt(i)) == 0
    ensures HoldsEntry(b, g, j, if i == j then e.(live := false) else e)
  {
    assert g.HashAt(i) + 2 <= g.InfoAt(j) && g.InfoAt(j) + 10 <= g.StringBase();
    InfoFrame(a, b, g, j, e);
  }

  lemma SpareAfterDelete(a: Image, b: Image, g: Geometry, dir: seq<Entry>, i: nat)
    requires Laid(g, dir, |a|) && Spare(a, g, dir) && i < |dir|
    requires SameOutside(a, b, g.HashAt(i), g.HashAt(i) + 2)
    ensures Laid(g, Deleted(dir, i), |b|) && Spare(b, g, Deleted(dir, i))
  {
    assert g.HashAt(i) + 2 <= g.InfoAt(0) <= g.InfoAt(|dir|);
    DataEndInside(g, dir, |a|);
    LaidDeleted(g, dir, i, |a|);
  }

  lemma LaidDeleted(g: Geometry, dir: seq<Entry>, i: nat, capacity: nat)
    requires Laid(g, dir, capacity) && i < |dir|
    ensures Laid(g, Deleted(dir, i), capacity)
    ensures NamesEnd(g, Deleted(dir, i)) == NamesEnd(g, dir)
    ensures DataEnd(g, Deleted(dir, i)) == DataEnd(g, dir)
  {
    var dir' := Deleted(dir, i);
    forall j, k | 0 <= j < k < |dir|
      ensures Before(dir'[j], dir'[k])
    {
      assert Before(dir[j], dir[k]);
    }
    forall j | 0 <= j < |dir|
      ensures Placed(g, dir'[j], capacity)
    {
      assert Placed(g, dir[j], capacity);
    }
  }

  /** A change inside one entry's range touches no part of the directory ... */
  lemma DataChanged(a: Image, b: Image, g: Geometry, dir: seq<Entry>, i: nat, lo: nat, hi: nat)
    requires Committed(a, g, dir) && Spare(a, g, dir) && i < |dir|
    requires dir[i].address <= lo && hi <= dir[i].DataEnd()
    requires SameOutside(a, b, lo, hi)
    ensures Committed(b, g, dir) && Spare(b, g, dir)
  {
    DataEndInside(g, dir, |a|);
    assert g.InfoAt(|dir|) <= g.StringBase() && NamesEnd(g, dir) <= lo;
    CommittedFrame(a, b, g, dir);
  }

  /** ... and no other entry's bytes. */
  lemma OthersKept(a: Image, b: Image, g: Geometry, dir: seq<Entry>, i: nat, lo: nat, hi: nat)
    requires Laid(g, dir, |a|) && i < |dir|
    requires dir[i].address <= lo && hi <= dir[i].DataEnd()
    requires SameOutside(a, b, lo, hi)
    ensures InRange(a, dir) && InRange(b, dir)
    ensures forall j :: 0 <= j < |dir| && j != i ==> Contents(b, dir[j]) == Contents(a, dir[j])
  {
    forall j | 0 <= j < |dir| && j != i
      ensures Contents(b, dir[j]) == Contents(a, dir[j])
    {
      assert if j < i then Before(dir[j], dir[i]) else Before(dir[i], dir[j]);
      ContentsFrame(a, b, dir[j]);
    }
  }

  /** A change below the data area touches no file. */
  lemma DirectoryChanged(a: Image, b: Image, g: Geometry, dir: seq<Entry>, lo: nat, hi: nat)
    requires Laid(g, dir, |a|)
    requires hi <= g.DataBase() && SameOutside(a, b, lo, hi)
    ensures InRange(a, dir) && InRange(b, dir)
    ensures forall j :: 0 <= j < |dir| ==> Contents(b, dir[j]) == Contents(a, dir[j])
  {
    forall j | 0 <= j < |dir|
      ensures Contents(b, dir[j]) == Contents(a, dir[j])
    {
      ContentsFrame(a, b, dir[j]);
    }
  }
}
