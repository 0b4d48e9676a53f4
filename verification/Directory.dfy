// The file listing in memory: a doubly linked list of entries with a cursor, and the screen it
// is drawn on.
module Directory {
  import opened Listing

  class Entry {
    const row: Row
    var prev: Entry?
    var next: Entry?

    constructor (row: Row)
      ensures this.row == row && prev == null && next == null
    {
      this.row := row;
      prev, next := null, null;
    }
  }

  function At(items: seq<Entry>, i: int): Entry?
  {
    if 0 <= i < |items| then items[i] else null
  }

  ghost predicate LinkAt(items: seq<Entry>, i: nat)
    requires i < |items|
    reads items[i]
  {
    items[i].prev == At(items, i - 1) && items[i].next == At(items, i + 1)
  }

  ghost predicate Linked(items: seq<Entry>)
    reads items
  {
    && (forall i {:trigger LinkAt(items, i)} :: 0 <= i < |items| ==> LinkAt(items, i))
    && (forall i, j :: 0 <= i < j < |items| ==> items[i] != items[j])
  }

  function Rows(items: seq<Entry>): (rows: seq<Row>)
    ensures |rows| == |items| && forall i :: 0 <= i < |rows| ==> rows[i] == items[i].row
  {
    seq(|items|, i requires 0 <= i < |items| => items[i].row)
  }

  /** "Built In ADF Files". */
  const BUILT_IN := Row([66, 117, 105, 108, 116, 32, 73, 110, 32, 65, 68, 70, 32, 70, 105, 108, 101, 115],
                        true, false, FlashMemory)

  lemma BuiltNext(found: seq<Row>, n: nat)
    requires n < |found|
    ensures Built(found[..n + 1]) == Inserted(Built(found[..n]), found[n])
  {
    assert found[..n + 1][..n] == found[..n];
  }

  lemma BuiltNone(found: seq<Row>)
    ensures Built(found[..0]) == []
  {
  }

  // The list while its directories move to the front: those of its first `p` rows, then the other
  // rows of those, then the rest as it was.

  ghost predicate SplitAt(items: seq<Entry>, was: seq<Entry>, d: nat, p: nat)
  {
    && d <= p <= |was| == |items| && items[p..] == was[p..]
    && Rows(items[..d]) == Keep(Rows(was[..p]), IsDirectory())
    && Rows(items[d..p]) == Keep(Rows(was[..p]), IsFile())
  }

  lemma SplitStart(was: seq<Entry>)
    ensures SplitAt(was, was, 0, 0)
  {
  }

  lemma KeepNext(was: seq<Entry>, p: nat, test: Row -> bool)
    requires p < |was|
    ensures Keep(Rows(was[..p + 1]), test) == Keep(Rows(was[..p]), test) + if test(was[p].row) then [was[p].row] else []
  {
    assert Rows(was[..p + 1]) == Rows(was[..p]) + [was[p].row];
    KeepAppend(Rows(was[..p]), [was[p].row], test);
    KeepOne(was[p].row, test);
  }

  lemma SplitMore(items: seq<Entry>, was: seq<Entry>, d: nat, p: nat)
    requires p < |was| && SplitAt(items, was, d, p)
    ensures items[p] == was[p]
    ensures !was[p].row.directory ==> SplitAt(items, was, d, p + 1)
    ensures was[p].row.directory ==>
      SplitAt(items[..d] + [items[p]] + items[d..p] + items[p + 1..], was, d + 1, p + 1)
  {
    hide Keep;
    KeepNext(was, p, IsDirectory());
    KeepNext(was, p, IsFile());
    assert items[p] == items[p..][0];
    if was[p].row.directory {
      var more := items[..d] + [items[p]] + items[d..p] + items[p + 1..];
      assert Rows(more[..d + 1]) == Rows(items[..d]) + [items[p].row];
      assert more[d + 1..p + 1] == items[d..p];
      assert more[p + 1..] == items[p + 1..] == items[p..][1..];
    } else {
      assert Rows(items[d..p + 1]) == Rows(items[d..p]) + [items[p].row];
      assert items[p + 1..] == items[p..][1..] == was[p + 1..];
    }
  }

  lemma SplitEnd(items: seq<Entry>, was: seq<Entry>, d: nat)
    requires SplitAt(items, was, d, |was|)
    ensures Rows(items) == DirectoriesFirst(Rows(was))
  {
    hide Keep;
    assert was[..|was|] == was;
    assert Rows(items) == Rows(items[..d]) + Rows(items[d..|was|]);
  }

  class Directory {
    var root: Entry?
    var current: Entry?
    var index: nat
    var screen: Screen
    const covers: set<Text>

    /** The list from its head on, and where in it the cursor is. */
    ghost var items: seq<Entry>
    ghost var at: nat

    ghost function Nodes(): set<Entry>
      reads this
    {
      set e | e in items
    }

    ghost predicate Shape()
      reads this, items
    {
      root == At(items, 0) && Linked(items)
    }

    /** The cursor is on the entry that its 16-bit index counts to. */
    ghost predicate Valid()
      reads this, items
    {
      Shape() && current == At(items, at) && index == at % 0x1_0000 && (at < |items| || (items == [] && at == 0))
    }

    lemma Neighbours(i: nat)
      requires Shape() && i < |items|
      ensures items[i].prev == At(items, i - 1) && items[i].next == At(items, i + 1)
    {
      assert LinkAt(items, i);
    }

    constructor (covers: set<Text>)
      ensures Valid() && items == [] && this.covers == covers
    {
      root, current, index := null, null, 0;
      screen := Screen([], NoCover);
      this.covers := covers;
      items, at := [], 0;
    }

    method Clear()
      modifies this`root, this`current, this`index, this`items, this`at
      ensures Valid() && items == [] && at == 0 && Nodes() == {} && Rows(items) == []
    {
      root, current, index := null, null, 0;
      items, at := [], 0;
    }

    method Up() returns (moved: bool)
      requires Valid()
      modifies this`current, this`index, this`at
      ensures Valid() && moved == (old(at) > 0) && at == if moved then old(at) - 1 else old(at)
    {
      if current != null {
        assert LinkAt(items, at);
      }
      if current == null || current.prev == null {
        return false;
      }
      current := current.prev;
      index := (index - 1) % 0x1_0000;
      at := at - 1;
      return true;
    }

    method Down() returns (moved: bool)
      requires Valid()
      modifies this`current, this`index, this`at
      ensures Valid() && moved == (old(at) + 1 < |items|) && at == if moved then old(at) + 1 else old(at)
    {
      if current != null {
        assert LinkAt(items, at);
      }
      if current == null || current.next == null {
        return false;
      }
      current := current.next;
      index := (index + 1) % 0x1_0000;
      at := at + 1;
      return true;
    }

    method GetFirst(item: Entry?, ghost k: nat) returns (first: Entry?)
      requires Shape() && item == At(items, k) && (item != null || items == [])
      ensures first == root
    {
      if item == null {
        return null;
      }
      first := item;
      ghost var i := k;
      assert LinkAt(items, i);
      while first.prev != null
        invariant 0 <= i < |items| && first == items[i] && LinkAt(items, i)
        decreases i
      {
        first, i := first.prev, i - 1;
        assert LinkAt(items, i);
      }
    }

    method GetLast(item: Entry?, ghost k: nat) returns (last: Entry?)
      requires Shape() && item == At(items, k) && (item != null || items == [])
      ensures last == At(items, |items| - 1)
    {
      if item == null {
        return null;
      }
      last := item;
      ghost var i := k;
      assert LinkAt(items, i);
      while last.next != null
        invariant i < |items| && last == items[i] && LinkAt(items, i)
        decreases |items| - i
      {
        last, i := last.next, i + 1;
        assert LinkAt(items, i);
      }
    }

    method GetItemIndex(item: Entry, ghost k: nat) returns (n: nat)
      requires Shape() && k < |items| && items[k] == item
      ensures n == k % 0x1_0000
    {
      var temp := GetFirst(item, k);
      n := 0;
      ghost var i := 0;
      assert LinkAt(items, i);
      while temp.next != null
        invariant i <= k && temp == items[i] && n == i % 0x1_0000 && LinkAt(items, i)
        decreases |items| - i
      {
        if temp == item {
          break;
        }
        n := (n + 1) % 0x1_0000;
        temp, i := temp.next, i + 1;
        assert LinkAt(items, i);
      }
    }

    /** Puts `item` before the entry at `k`, or into an empty list. */
    method InsertItemBefore(item: Entry, before: Entry?, ghost k: nat)
      requires Shape() && item !in items && before == At(items, k) && (k < |items| || (items == [] && k == 0))
      modifies this`root, this`current, this`items, item, Nodes()
      ensures Shape() && items == old(items[..k]) + [item] + old(items[k..])
      ensures Nodes() == old(Nodes()) + {item}
      ensures current == if k == 0 then item else old(current)
    {
      ghost var was := items;
      assert k < |was| ==> LinkAt(was, k);
      assert k > 0 ==> LinkAt(was, k - 1);
      item.prev := if before == null then null else before.prev;
      if before != null {
        before.prev := item;
      }
      item.next := before;
      if item.prev != null {
        item.prev.next := item;
      } else {
        root, current := item, item;
      }
      items := was[..k] + [item] + was[k..];
      forall i | 0 <= i < |items|
        ensures LinkAt(items, i)
      {
        if i < k {
          assert old(LinkAt(was, i));
        } else if i > k {
          assert old(LinkAt(was, i - 1));
        }
      }
    }

    method RemoveItem(item: Entry, ghost k: nat)
      requires Shape() && k < |items| && items[k] == item && (k == 0 ==> |items| > 1)
      modifies this`root, this`items, Nodes()
      ensures Shape() && items == old(items[..k]) + old(items[k + 1..])
      ensures item.prev == item.next == null && item !in items && Nodes() == old(Nodes()) - {item}
    {
      ghost var was := items;
      assert LinkAt(was, k);
      assert k > 0 ==> LinkAt(was, k - 1);
      assert k + 1 < |was| ==> LinkAt(was, k + 1);
      var last := GetLast(item, k);
      if root == item {
        item.next.prev := null;
        root := item.next;
      } else if last == item {
        item.prev.next := null;
      } else {
        item.prev.next := item.next;
        item.next.prev := item.prev;
      }
      item.next := null;
      item.prev := null;
      items := was[..k] + was[k + 1..];
      forall i | 0 <= i < |items|
        ensures LinkAt(items, i)
      {
        if i < k {
          assert old(LinkAt(was, i));
        } else {
          assert old(LinkAt(was, i + 1));
        }
      }
    }

    method MoveItemBefore(item: Entry, before: Entry, ghost i: nat, ghost k: nat)
      requires Shape() && k <= i < |items| && items[i] == item && items[k] == before
      modifies this`root, this`current, this`items, Nodes()
      ensures Shape() && items == old(items[..k]) + [item] + old(items[k..i]) + old(items[i + 1..])
      ensures Nodes() == old(Nodes())
      ensures current == if k == 0 < i then item else old(current)
    {
      if item == before {
        return;
      }
      hide Linked, Nodes;
      ghost var was := items;
      RemoveItem(item, i);
      ghost var rest := items;
      assert rest[..k] == was[..k] && rest[k..] == was[k..i] + was[i + 1..];
      assert rest[k] == before;
      InsertItemBefore(item, before, k);
    }

    method AddRoot(item: Entry)
      requires Valid() && at == 0 && item !in items
      modifies this`root, this`current, this`items, item, Nodes()
      ensures Valid() && items == [item] + old(items) && Nodes() == old(Nodes()) + {item}
      ensures Rows(items) == [item.row] + old(Rows(items))
    {
      InsertItemBefore(item, root, 0);
    }

    /** Adds an entry where its name belongs; the cursor is on the first entry all the while. */
    method AddItem(item: Entry)
      requires Valid() && at == 0 && item !in items && item.prev == item.next == null
      modifies this`root, this`current, this`items, item, Nodes()
      ensures Valid() && Nodes() == old(Nodes()) + {item}
      ensures Rows(items) == Inserted(old(Rows(items)), item.row)
    {
      hide Less, Place, Linked, Nodes;
      if root == null {
        First(item);
        return;
      }
      ghost var was := items;
      var compare, k := FindPlace(item);
      if compare != null {
        InsertItemBefore(item, compare, k);
      } else {
        var last := GetLast(root, 0);
        Append(item, last);
      }
      assert Rows(items) == Rows(was)[..k] + [item.row] + Rows(was)[k..];
    }

    method First(item: Entry)
      requires Shape() && items == [] && item.prev == item.next == null
      modifies this`root, this`current, this`items
      ensures Shape() && items == [item] && current == item
      ensures Nodes() == {item} == old(Nodes()) + {item} && Rows(items) == Inserted([], item.row)
    {
      root, current := item, item;
      items := [item];
    }

    /** The first entry with a greater name, or null. */
    method FindPlace(item: Entry) returns (compare: Entry?, ghost k: nat)
      requires Shape() && items != []
      ensures k == Place(Rows(items), item.row) && compare == At(items, k)
    {
      hide Less, Place;
      compare := GetFirst(root, 0);
      k := 0;
      while compare != null
        invariant k <= |items| && compare == At(items, k)
        invariant forall i :: 0 <= i < k ==> !Less(item.row.name, items[i].row.name)
        decreases |items| - k
      {
        if Less(item.row.name, compare.row.name) {
          break;
        }
        assert LinkAt(items, k);
        compare, k := compare.next, k + 1;
      }
      PlaceUnique(Rows(items), item.row, k);
    }

    method Append(item: Entry, last: Entry)
      requires Shape() && item !in items && item.prev == item.next == null
      requires items != [] && last == items[|items| - 1]
      modifies this`items, item, Nodes()
      ensures Shape() && items == old(items) + [item] && Nodes() == old(Nodes()) + {item}
    {
      ghost var was := items;
      assert LinkAt(was, |was| - 1);
      item.prev := last;
      last.next := item;
      items := was + [item];
      forall i | 0 <= i < |items|
        ensures LinkAt(items, i)
      {
        if i < |was| {
          assert old(LinkAt(was, i));
        }
      }
    }

    /** Moves the directories to the front, each group in the order it had. */
    method PutDirectoriesFirst()
      requires Valid() && at == 0
      modifies this`root, this`current, this`items, Nodes()
      ensures Valid() && Rows(items) == DirectoriesFirst(old(Rows(items)))
      ensures Nodes() == old(Nodes())
    {
      hide SplitAt, DirectoriesFirst, Rows, Linked, Nodes;
      var item: Entry?, before: Entry? := root, null;
      ghost var was, d, p := items, 0, 0;
      SplitStart(was);
      while item != null
        invariant Shape() && |items| == |was| && 0 <= d <= p <= |items|
        invariant item == At(items, p) && before == (if d == 0 then null else At(items, d))
        invariant SplitAt(items, was, d, p) && current == At(items, 0)
        invariant Nodes() == old(Nodes())
        decreases |was| - p
      {
        Neighbours(p);
        SplitMore(items, was, d, p);
        if item.row.directory {
          var tempNext := item.next;
          MoveItemBefore(item, if before == null then root else before, p, d);
          Neighbours(d);
          before := item.next;
          item := tempNext;
          d := d + 1;
        } else {
          item := item.next;
        }
        p := p + 1;
      }
      SplitEnd(items, was, d);
    }

    /** Builds the listing from what is found, in the order it is found; `top` also lists the
        directory of built-in files, at the very top. */
    method GetDirectory(found: seq<Row>, directoriesFirst: bool, top: bool)
      modifies this`root, this`current, this`index, this`items, this`at
      ensures Valid() && at == 0 && fresh(Nodes())
      ensures var rows := if directoriesFirst then DirectoriesFirst(Built(found)) else Built(found);
              Rows(items) == if top then [BUILT_IN] + rows else rows
      ensures var all := Rows(items);
        if top then all != [] && all[0] == BUILT_IN && IsListing(all[1..], found, directoriesFirst)
        else IsListing(all, found, directoriesFirst)
    {
      hide Inserted, DirectoriesFirst, Built, Rows, Linked, Nodes, IsListing;
      Clear();
      BuiltNone(found);
      for n := 0 to |found|
        invariant Valid() && at == 0 && fresh(Nodes()) && Rows(items) == Built(found[..n])
      {
        var item := new Entry(found[n]);
        BuiltNext(found, n);
        AddItem(item);
      }
      assert found[..|found|] == found;
      if directoriesFirst {
        PutDirectoriesFirst();
      }
      if top {
        var item := new Entry(BUILT_IN);
        AddRoot(item);
      }
      ListingOrdered(found, directoriesFirst);
      assert top ==> Rows(items)[1..] == if directoriesFirst then DirectoriesFirst(Built(found)) else Built(found);
    }

    /** One entry on one row. A cover image goes over the whole screen. */
    method DrawItem(item: Entry, row: nat) returns (covered: bool)
      requires row < |screen.cells|
      modifies this`screen
      ensures covered == (item == current && HasCover(item.row, covers))
      ensures screen.cells == old(screen.cells)[row := Shown(item.row, ColorOf(item.row, item == current))]
      ensures screen.cover == if covered then CoverOf(item.row) else old(screen.cover)
    {
      var color := if item == current then Green else White;
      if item.row.wrongSize {
        color := Red;
      }
      screen := screen.(cells := screen.cells[row := Shown(item.row, color)]);
      if item.row.source == FlashMemory && item == current {
        if item.row.name in covers {
          screen := screen.(cover := CoverOf(item.row));
          return true;
        }
      }
      return false;
    }

    method DrawDirectory()
      requires Valid() && |items| <= 0x1_0000
      modifies this`screen
      ensures screen == Drawn(Rows(items), at, covers)
    {
      hide Linked, Nodes, Painted, Drawn, HasCover, ColorOf, WindowTop;
      SmallIndex(at);
      ghost var rows := Rows(items);
      screen := Screen(seq(SCREEN, _ => Empty), NoCover);
      PaintStart(rows, at, covers);
      var top := WindowTop(index);
      var item := Skip(top);
      var count, covered := 0, false;
      while item != null && count < SCREEN && !covered
        invariant item == At(items, top + count) && count <= SCREEN == |screen.cells|
        invariant Painted(screen, rows, at, covers, count, covered)
        decreases SCREEN - count
      {
        ghost var before := screen;
        CursorOnce(top + count);
        covered := DrawItem(item, count);
        PaintMore(before, screen, rows, at, covers, count, covered);
        item, count := item.next, count + 1;
      }
      PaintEnd(screen, rows, at, covers, count, covered);
    }

    /** In a list that the 16-bit index can count. */
    lemma SmallIndex(place: nat)
      requires Valid() && |items| <= 0x1_0000
      ensures index == at && (place < |items| ==> place % 0x1_0000 == place)
    {
    }

    /** Of all entries, only the one at the cursor is the current one. */
    lemma CursorOnce(i: nat)
      requires Valid() && i < |items|
      ensures (items[i] == current) == (i == at) && items[i].next == At(items, i + 1)
    {
      assert LinkAt(items, i);
    }

    method Skip(n: nat) returns (item: Entry?)
      requires Shape()
      ensures item == At(items, n)
    {
      item := root;
      for skipped := 0 to n
        invariant item == At(items, skipped)
      {
        if item != null {
          assert LinkAt(items, skipped);
          item := item.next;
        }
      }
    }

    /** Repaints the two rows that a step of the cursor changed, if that is enough. `place` is
        where `previous` is. Whenever it says that it was, the screen is what a full redraw shows. */
    method RedrawSelection(previous: Entry?, previousTop: nat, ghost place: nat) returns (done: bool)
      requires Valid() && |items| <= 0x1_0000 && previous == At(items, place) && |screen.cells| == SCREEN
      modifies this`screen
      ensures !done ==> screen == old(screen)
      ensures done && previousTop == WindowTop(place) && old(screen) == Drawn(Rows(items), place, covers) ==>
        screen == Drawn(Rows(items), at, covers)
      ensures done <==>
        && previous != null && current != null && previousTop == WindowTop(at)
        && previous.row.source != FlashMemory && current.row.source != FlashMemory
        && (place + 1 == at || at + 1 == place)
        && WindowTop(at) <= place < WindowTop(at) + SCREEN
    {
      hide Linked, Nodes, Drawn, ColorOf, HasCover;
      SmallIndex(place);
      if previous == null || current == null {
        return false;
      }
      if previousTop != WindowTop(index) {
        return false;
      }
      if previous.row.source == FlashMemory || current.row.source == FlashMemory {
        return false;
      }
      var top := WindowTop(index);
      var previousIndex := GetItemIndex(previous, place);
      CursorOnce(place);
      if previousIndex + 1 != index && index + 1 != previousIndex {
        return false;
      }
      if previousIndex < top || previousIndex >= top + SCREEN {
        return false;
      }
      if index < top || index >= top + SCREEN {
        return false;
      }
      if previousTop == WindowTop(place) {
        TwoRowsChange(Rows(items), place, at, covers);
      }
      Repaint(previous, previousIndex - top, current, index - top);
      return true;
    }

    /** The entry the cursor left, then the one it is on; a step apart, they are never the same. */
    method Repaint(previous: Entry, from: nat, item: Entry, to: nat)
      requires from < |screen.cells| && to < |screen.cells| && previous != item == current
      requires previous.row.source != FlashMemory && item.row.source != FlashMemory
      modifies this`screen
      ensures screen == old(screen).(
        cells := old(screen.cells)[from := Shown(previous.row, ColorOf(previous.row, false))]
                                  [to := Shown(item.row, ColorOf(item.row, true))])
    {
      var _ := DrawItem(previous, from);
      var _ := DrawItem(item, to);
    }
  }
}
