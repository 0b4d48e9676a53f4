// What the file listing shows: names in order, directories first, and a window of twelve rows
// that follows the cursor.
module Listing {
  import opened Bytes

  type Text = seq<byte>

  datatype Source = SdCard | FlashMemory

  datatype Row = Row(name: Text, directory: bool, wrongSize: bool, source: Source)

  // Order by name, as the bytes of the names compare.

  /** At the first place where they differ `a` has the smaller byte, or is over. */
  predicate Less(a: Text, b: Text)
  {
    exists k :: 0 <= k <= |a| && k <= |b| && a[..k] == b[..k] &&
      ((k == |a| && k < |b|) || (k < |a| && k < |b| && a[k] < b[k]))
  }

  /** It can be told from the first bytes and the rest. */
  lemma LessStep(a: Text, b: Text)
    ensures Less(a, b) <==> b != [] && (a == [] || a[0] < b[0] || (a[0] == b[0] && Less(a[1..], b[1..])))
  {
    if Less(a, b) {
      LessDown(a, b);
    }
    if b != [] && (a == [] || a[0] < b[0]) {
      assert a[..0] == b[..0];
    } else if b != [] && a[0] == b[0] && Less(a[1..], b[1..]) {
      LessUp(a, b);
    }
  }

  lemma LessDown(a: Text, b: Text)
    requires Less(a, b)
    ensures b != [] && (a == [] || a[0] < b[0] || (a[0] == b[0] && Less(a[1..], b[1..])))
  {
    var k :| 0 <= k <= |a| && k <= |b| && a[..k] == b[..k] &&
      ((k == |a| && k < |b|) || (k < |a| && k < |b| && a[k] < b[k]));
    if k > 0 {
      assert a[0] == a[..k][0] == b[..k][0] == b[0];
      assert a[1..][..k - 1] == a[..k][1..] && b[1..][..k - 1] == b[..k][1..];
    }
  }

  lemma LessUp(a: Text, b: Text)
    requires a != [] && b != [] && a[0] == b[0] && Less(a[1..], b[1..])
    ensures Less(a, b)
  {
    var c, d := a[1..], b[1..];
    var k :| 0 <= k <= |c| && k <= |d| && c[..k] == d[..k] &&
      ((k == |c| && k < |d|) || (k < |c| && k < |d| && c[k] < d[k]));
    assert a[..k + 1] == [a[0]] + c[..k] && b[..k + 1] == [b[0]] + d[..k];
  }

  lemma {:induction false} LessTotal(a: Text, b: Text)
    ensures Less(a, b) || a == b || Less(b, a)
    ensures !(Less(a, b) && Less(b, a)) && !Less(a, a)
    decreases |a|
  {
    hide Less;
    LessStep(a, b);
    LessStep(b, a);
    LessStep(a, a);
    if a != [] {
      LessTotal(a[1..], a[1..]);
      if b != [] && a[0] == b[0] {
        LessTotal(a[1..], b[1..]);
        assert a == [a[0]] + a[1..] && b == [b[0]] + b[1..];
      }
    }
  }

  lemma {:induction false} LessTransitive(a: Text, b: Text, c: Text)
    requires !Less(b, a) && !Less(c, b)
    ensures !Less(c, a)
    decreases |a|
  {
    hide Less;
    LessStep(b, a);
    LessStep(c, b);
    LessStep(c, a);
    if a != [] && c != [] && b != [] && a[0] == b[0] == c[0] {
      LessTransitive(a[1..], b[1..], c[1..]);
    }
  }

  ghost predicate Sorted(rows: seq<Row>)
  {
    forall i, j :: 0 <= i < j < |rows| ==> !Less(rows[j].name, rows[i].name)
  }

  /** The place of a new row: before the first one whose name is greater. */
  function Place(rows: seq<Row>, row: Row): (k: nat)
    ensures k <= |rows|
    ensures forall i :: 0 <= i < k ==> !Less(row.name, rows[i].name)
    ensures k < |rows| ==> Less(row.name, rows[k].name)
  {
    if rows == [] || Less(row.name, rows[0].name) then 0 else 1 + Place(rows[1..], row)
  }

  lemma PlaceUnique(rows: seq<Row>, row: Row, k: nat)
    requires k <= |rows| && forall i :: 0 <= i < k ==> !Less(row.name, rows[i].name)
    requires k < |rows| ==> Less(row.name, rows[k].name)
    ensures Place(rows, row) == k
  {
    hide Less;
  }

  function Inserted(rows: seq<Row>, row: Row): seq<Row>
  {
    var k := Place(rows, row);
    rows[..k] + [row] + rows[k..]
  }

  /** A listing built by adding the rows one after the other. */
  function Built(found: seq<Row>): seq<Row>
  {
    if found == [] then [] else Inserted(Built(found[..|found| - 1]), found[|found| - 1])
  }

  /** The rows that pass a test, in their order. */
  function Keep(rows: seq<Row>, test: Row -> bool): (r: seq<Row>)
    ensures |r| <= |rows|
    ensures forall i :: 0 <= i < |r| ==> test(r[i]) && r[i] in rows
  {
    if rows == [] then []
    else Keep(rows[..|rows| - 1], test) + (if test(rows[|rows| - 1]) then [rows[|rows| - 1]] else [])
  }

  lemma {:induction false} KeepAppend(a: seq<Row>, b: seq<Row>, test: Row -> bool)
    ensures Keep(a + b, test) == Keep(a, test) + Keep(b, test)
    decreases |b|
  {
    if b == [] {
      assert a + b == a;
    } else {
      var n := |b| - 1;
      assert (a + b)[..|a + b| - 1] == a + b[..n];
      KeepAppend(a, b[..n], test);
    }
  }

  function Named(name: Text): Row -> bool
  {
    (r: Row) => r.name == name
  }

  lemma KeepOne(row: Row, test: Row -> bool)
    ensures Keep([row], test) == if test(row) then [row] else []
  {
    assert [row][..0] == [];
  }

  /** If none passes, none is kept. */
  lemma {:induction false} KeepNone(rows: seq<Row>, test: Row -> bool)
    requires forall r :: r in rows ==> !test(r)
    ensures Keep(rows, test) == []
    decreases |rows|
  {
    if rows != [] {
      var n := |rows| - 1;
      KeepNone(rows[..n], test);
    }
  }

  lemma InsertedSorted(rows: seq<Row>, row: Row)
    requires Sorted(rows)
    ensures Sorted(Inserted(rows, row))
  {
    hide Less;
    var k := Place(rows, row);
    forall i | k <= i < |rows|
      ensures !Less(rows[i].name, row.name)
    {
      LessTotal(row.name, rows[k].name);
      LessTotal(rows[k].name, rows[k].name);
      LessTransitive(row.name, rows[k].name, rows[i].name);
    }
  }

  /** Among rows of one name, the new one comes last. */
  lemma InsertedStable(rows: seq<Row>, row: Row, name: Text)
    requires Sorted(rows)
    ensures Keep(Inserted(rows, row), Named(name)) == Keep(rows + [row], Named(name))
  {
    hide Less, Keep, Place, Sorted;
    var k, test := Place(rows, row), Named(name);
    KeepAppend(rows[..k] + [row], rows[k..], test);
    KeepAppend(rows[..k], [row], test);
    KeepAppend(rows, [row], test);
    KeepAppend(rows[..k], rows[k..], test);
    assert rows == rows[..k] + rows[k..];
    KeepOne(row, test);
    if row.name == name {
      NoneGreater(rows, row, k);
      KeepNone(rows[k..], test);
    }
  }

  /** From its place on, no row has the new row's name. */
  lemma NoneGreater(rows: seq<Row>, row: Row, k: nat)
    requires Sorted(rows) && k == Place(rows, row)
    ensures forall r :: r in rows[k..] ==> r.name != row.name
  {
    hide Less, Place;
    if k < |rows| {
      LessTotal(row.name, rows[k].name);
      assert forall i :: k < i < |rows| ==> !Less(rows[i].name, rows[k].name);
    }
  }

  lemma InsertedKeepsAll(rows: seq<Row>, row: Row)
    ensures multiset(Inserted(rows, row)) == multiset(rows) + multiset{row}
  {
    hide Place;
    var k := Place(rows, row);
    assert rows == rows[..k] + rows[k..];
  }

  /** A listing is a stable sort by name of what was found: in order, nothing lost or doubled,
      and rows of one name as they came. */
  lemma {:induction false} BuiltSorted(found: seq<Row>)
    ensures Sorted(Built(found)) && multiset(Built(found)) == multiset(found)
    ensures forall name :: Keep(Built(found), Named(name)) == Keep(found, Named(name))
    decreases |found|
  {
    if found != [] {
      hide Less, Keep, Place;
      var n := |found| - 1;
      var rows, row := Built(found[..n]), found[n];
      BuiltSorted(found[..n]);
      InsertedSorted(rows, row);
      InsertedKeepsAll(rows, row);
      assert found == found[..n] + [row];
      hide Inserted;
      forall name
        ensures Keep(Built(found), Named(name)) == Keep(found, Named(name))
      {
        InsertedStable(rows, row, name);
        KeepAppend(rows, [row], Named(name));
        KeepAppend(found[..n], [row], Named(name));
      }
    }
  }

  // Directories first.

  function IsDirectory(): Row -> bool
  {
    (r: Row) => r.directory
  }

  function IsFile(): Row -> bool
  {
    (r: Row) => !r.directory
  }

  function DirectoriesFirst(rows: seq<Row>): seq<Row>
  {
    Keep(rows, IsDirectory()) + Keep(rows, IsFile())
  }

  lemma OneMoreKept(rows: seq<Row>, test: Row -> bool)
    requires rows != []
    ensures var n := |rows| - 1;
      Keep(rows, test) == Keep(rows[..n], test) + if test(rows[n]) then [rows[n]] else []
  {
  }

  lemma OneRowMore(a: seq<Row>, b: seq<Row>, rows: seq<Row>, row: Row)
    requires multiset(a + b) == multiset(rows)
    ensures multiset((a + [row]) + b) == multiset(a + (b + [row])) == multiset(rows + [row])
  {
    assert multiset((a + [row]) + b) == multiset(a) + multiset{row} + multiset(b);
    assert multiset(a + (b + [row])) == multiset(a) + multiset(b) + multiset{row};
  }

  lemma {:induction false} SplitKeepsAll(rows: seq<Row>)
    ensures multiset(DirectoriesFirst(rows)) == multiset(rows)
    decreases |rows|
  {
    hide Keep;
    if rows == [] {
      NoneKept(IsDirectory());
      NoneKept(IsFile());
    } else {
      var n := |rows| - 1;
      SplitKeepsAll(rows[..n]);
      OneMoreKept(rows, IsDirectory());
      OneMoreKept(rows, IsFile());
      var directories, files := Keep(rows[..n], IsDirectory()), Keep(rows[..n], IsFile());
      OneRowMore(directories, files, rows[..n], rows[n]);
      assert rows == rows[..n] + [rows[n]];
      assert directories + [] == directories && files + [] == files;
    }
  }

  lemma NoneKept(test: Row -> bool)
    ensures Keep([], test) == []
  {
  }

  lemma SortedMore(rows: seq<Row>, row: Row)
    requires Sorted(rows) && forall r :: r in rows ==> !Less(row.name, r.name)
    ensures Sorted(rows + [row])
  {
    hide Less;
  }

  /** Rows kept from sorted rows are sorted. */
  lemma {:induction false} KeepSorted(rows: seq<Row>, test: Row -> bool)
    requires Sorted(rows)
    ensures Sorted(Keep(rows, test))
    decreases |rows|
  {
    hide Less, Keep;
    if rows == [] {
      NoneKept(test);
    } else {
      var n := |rows| - 1;
      KeepSorted(rows[..n], test);
      OneMoreKept(rows, test);
      var kept := Keep(rows[..n], test);
      forall r | r in kept
        ensures !Less(rows[n].name, r.name)
      {
        assert r in rows[..n];
      }
      SortedMore(kept, rows[n]);
      assert kept + [] == kept;
    }
  }

  /** Directories by name, then files by name, of which the first is at `d`. */
  ghost predicate Ordered(rows: seq<Row>, d: nat)
  {
    && d <= |rows| && Sorted(rows[..d]) && Sorted(rows[d..])
    && forall i :: 0 <= i < |rows| ==> (rows[i].directory <==> i < d)
  }

  lemma SplitOrdered(rows: seq<Row>)
    requires Sorted(rows)
    ensures Ordered(DirectoriesFirst(rows), |Keep(rows, IsDirectory())|)
  {
    hide Less, Sorted;
    var directories, files := Keep(rows, IsDirectory()), Keep(rows, IsFile());
    KeepSorted(rows, IsDirectory());
    KeepSorted(rows, IsFile());
    assert (directories + files)[..|directories|] == directories && (directories + files)[|directories|..] == files;
  }

  /** One name, of directories or of files. */
  function OneKind(name: Text, directory: bool): Row -> bool
  {
    (r: Row) => r.name == name && r.directory == directory
  }

  /** The rows of a finished listing: everything that was found exactly once, by name, with the
      directories first if that is asked for, and rows that do not differ in that as they came. */
  ghost predicate IsListing(rows: seq<Row>, found: seq<Row>, directoriesFirst: bool)
  {
    && multiset(rows) == multiset(found)
    && (if directoriesFirst then exists d :: Ordered(rows, d) else Sorted(rows))
    && forall name, directory :: Keep(rows, OneKind(name, directory)) == Keep(found, OneKind(name, directory))
  }

  lemma {:induction false} KeepKept(rows: seq<Row>, first: Row -> bool, test: Row -> bool)
    ensures (forall r :: test(r) ==> first(r)) ==> Keep(Keep(rows, first), test) == Keep(rows, test)
    ensures (forall r :: test(r) ==> !first(r)) ==> Keep(Keep(rows, first), test) == []
    decreases |rows|
  {
    if rows != [] {
      var n := |rows| - 1;
      KeepKept(rows[..n], first, test);
      OneMoreKept(rows, first);
      OneMoreKept(rows, test);
      var kept := Keep(rows[..n], first);
      if first(rows[n]) {
        KeepAppend(kept, [rows[n]], test);
        KeepOne(rows[n], test);
      }
      assert kept + [] == kept;
    }
  }

  /** Splitting keeps the order of rows of one kind. */
  lemma SplitStable(rows: seq<Row>, name: Text, directory: bool)
    ensures Keep(DirectoriesFirst(rows), OneKind(name, directory)) == Keep(rows, OneKind(name, directory))
  {
    hide Keep;
    var test := OneKind(name, directory);
    KeepAppend(Keep(rows, IsDirectory()), Keep(rows, IsFile()), test);
    KeepKept(rows, IsDirectory(), test);
    KeepKept(rows, IsFile(), test);
  }

  /** What keeps the order of each name keeps the order of each name and kind. */
  lemma KindStable(rows: seq<Row>, found: seq<Row>, name: Text, directory: bool)
    requires Keep(rows, Named(name)) == Keep(found, Named(name))
    ensures Keep(rows, OneKind(name, directory)) == Keep(found, OneKind(name, directory))
  {
    KeepKept(rows, Named(name), OneKind(name, directory));
    KeepKept(found, Named(name), OneKind(name, directory));
  }

  lemma ListingOrdered(found: seq<Row>, directoriesFirst: bool)
    ensures var built := Built(found);
      IsListing(if directoriesFirst then DirectoriesFirst(built) else built, found, directoriesFirst)
  {
    hide Keep, Built, DirectoriesFirst, Ordered, Sorted, Named, OneKind;
    var built := Built(found);
    BuiltSorted(found);
    SplitKeepsAll(built);
    SplitOrdered(built);
    forall name, directory
      ensures Keep(built, OneKind(name, directory)) == Keep(found, OneKind(name, directory))
      ensures Keep(DirectoriesFirst(built), OneKind(name, directory)) == Keep(found, OneKind(name, directory))
    {
      KindStable(built, found, name, directory);
      SplitStable(built, name, directory);
    }
  }

  // The screen.

  const SCREEN := 12

  datatype Color = Green | White | Red

  datatype Cell = Empty | Shown(row: Row, color: Color)

  datatype Cover = NoCover | CoverOf(row: Row)

  /** The rows, and the picture painted over them if there is one. */
  datatype Screen = Screen(cells: seq<Cell>, cover: Cover)

  /** The cursor's row is on the screen; the list has scrolled only if it is the last one there. */
  function WindowTop(index: nat): (top: nat)
    ensures top <= index < top + SCREEN && (top > 0 ==> index == top + SCREEN - 1)
  {
    if index + 1 >= SCREEN then index + 1 - SCREEN else 0
  }

  function ColorOf(row: Row, current: bool): Color
  {
    if row.wrongSize then Red else if current then Green else White
  }

  /** `covers` are the names of the flash files that have a cover image. */
  function HasCover(row: Row, covers: set<Text>): bool
  {
    row.source == FlashMemory && row.name in covers
  }

  /** What the whole window looks like with the cursor at `index`. */
  function Drawn(rows: seq<Row>, index: nat, covers: set<Text>): Screen
  {
    var top := WindowTop(index);
    var covered := index < |rows| && HasCover(rows[index], covers);
    Screen(
      seq(SCREEN, k requires 0 <= k < SCREEN =>
        if top + k < |rows| && !(covered && top + k > index)
        then Shown(rows[top + k], ColorOf(rows[top + k], top + k == index)) else Empty),
      if covered then CoverOf(rows[index]) else NoCover)
  }

  lemma DrawnCell(rows: seq<Row>, index: nat, covers: set<Text>, k: nat)
    requires k < SCREEN
    ensures var drawn, i := Drawn(rows, index, covers), WindowTop(index) + k;
      && |drawn.cells| == SCREEN
      && drawn.cover == (if index < |rows| && HasCover(rows[index], covers) then CoverOf(rows[index]) else NoCover)
      && drawn.cells[k] == (if i < |rows| && !(index < |rows| && HasCover(rows[index], covers) && i > index)
                            then Shown(rows[i], ColorOf(rows[i], i == index)) else Empty)
  {
  }

  // A window while it is drawn: `count` rows are done, and `covered` says that the last of them
  // brought its cover image with it.

  ghost predicate Painted(s: Screen, rows: seq<Row>, index: nat, covers: set<Text>, count: nat, covered: bool)
  {
    var drawn, top := Drawn(rows, index, covers), WindowTop(index);
    && count <= SCREEN == |s.cells|
    && (forall k :: 0 <= k < count ==> s.cells[k] == drawn.cells[k])
    && (forall k :: count <= k < SCREEN ==> s.cells[k] == Empty)
    && s.cover == (if covered then drawn.cover else NoCover)
    && (drawn.cover != NoCover ==> if covered then top + count == index + 1 else top + count <= index)
    && (covered ==> drawn.cover != NoCover)
  }

  lemma PaintStart(rows: seq<Row>, index: nat, covers: set<Text>)
    ensures Painted(Screen(seq(SCREEN, _ => Empty), NoCover), rows, index, covers, 0, false)
  {
    hide HasCover, ColorOf;
    DrawnCell(rows, index, covers, 0);
  }

  lemma PaintMore(s: Screen, t: Screen, rows: seq<Row>, index: nat, covers: set<Text>, count: nat, covered: bool)
    requires Painted(s, rows, index, covers, count, false) && count < SCREEN
    requires var i := WindowTop(index) + count;
      && i < |rows| && covered == (i == index && HasCover(rows[i], covers))
      && t.cells == s.cells[count := Shown(rows[i], ColorOf(rows[i], i == index))]
      && t.cover == if covered then CoverOf(rows[i]) else s.cover
    ensures Painted(t, rows, index, covers, count + 1, covered)
  {
    hide HasCover, ColorOf, Drawn;
    DrawnCell(rows, index, covers, count);
  }

  lemma PaintEnd(s: Screen, rows: seq<Row>, index: nat, covers: set<Text>, count: nat, covered: bool)
    requires Painted(s, rows, index, covers, count, covered)
    requires covered || count == SCREEN || WindowTop(index) + count >= |rows|
    ensures s == Drawn(rows, index, covers)
  {
    hide HasCover, ColorOf, Drawn;
    var drawn := Drawn(rows, index, covers);
    forall k | 0 <= k < SCREEN
      ensures |drawn.cells| == SCREEN && s.cells[k] == drawn.cells[k]
    {
      DrawnCell(rows, index, covers, k);
    }
    DrawnCell(rows, index, covers, 0);
    assert s.cells == drawn.cells;
  }

  /** Moving the cursor by one without scrolling changes two rows. */
  lemma TwoRowsChange(rows: seq<Row>, before: nat, index: nat, covers: set<Text>)
    requires before < |rows| && index < |rows| && WindowTop(before) == WindowTop(index)
    requires rows[before].source != FlashMemory && rows[index].source != FlashMemory && before != index
    ensures var top := WindowTop(index);
      && top <= before < top + SCREEN && top <= index < top + SCREEN
      && Drawn(rows, index, covers) == Drawn(rows, before, covers).(
           cells := Drawn(rows, before, covers).cells[before - top := Shown(rows[before], ColorOf(rows[before], false))]
                                                     [index - top := Shown(rows[index], ColorOf(rows[index], true))])
  {
    var top := WindowTop(index);
    var was, now := Drawn(rows, before, covers), Drawn(rows, index, covers);
    assert now.cells == was.cells[before - top := Shown(rows[before], ColorOf(rows[before], false))]
                                 [index - top := Shown(rows[index], ColorOf(rows[index], true))];
  }
}
