// Walking an Amiga directory: a hash table of chains, each followed until it ends or until its
// next link is one of the two faults that are noticed. A cycle that avoids both is not noticed.
module AdfWalk {

  type Sector = int

  const HT_SIZE := 72

  type Table = t: seq<Sector> | |t| == HT_SIZE witness seq(72, _ => 0)

  /** What can be read: the hash tables of directory blocks, and the `nextSameHash` of entries. */
  datatype Volume = Volume(tables: map<Sector, Table>, next: map<Sector, Sector>)

  datatype Fault = SelfLink | HashLoop

  datatype Warning = Warning(sector: Sector, fault: Fault)

  /** One chain: what is visited, and how it ends. `Endless` only says that more than `fuel`
      blocks are visited. */
  datatype Chain =
    | Done(visits: seq<Sector>, warnings: seq<Warning>)
    | Failed(visits: seq<Sector>)
    | Endless

  /** A link that is followed. */
  predicate Kept(vol: Volume, table: Table, s: Sector)
  {
    s in vol.next && vol.next[s] != 0 && vol.next[s] != s && vol.next[s] !in table
  }

  function Follow(vol: Volume, table: Table, s: Sector, fuel: nat): Chain
    decreases fuel
  {
    if s == 0 then Done([], [])
    else if fuel == 0 then Endless
    else if s !in vol.next then Failed([])
    else if Kept(vol, table, s) then
      match Follow(vol, table, vol.next[s], fuel - 1)
      case Done(visits, warnings) => Done([s] + visits, warnings)
      case Failed(visits) => Failed([s] + visits)
      case Endless => Endless
    else Done([s], if vol.next[s] == 0 then []
                   else if vol.next[s] == s then [Warning(s, SelfLink)] else [Warning(s, HashLoop)])
  }

  /** As many blocks as a chain can visit if it ends at all, and one more. */
  function Limit(vol: Volume): nat
  {
    |vol.next| + 1
  }

  ghost predicate Ends(vol: Volume, table: Table, s: Sector)
  {
    exists fuel: nat :: Follow(vol, table, s, fuel) != Endless
  }

  /** The block after `n` links that are kept. */
  ghost predicate Goes(vol: Volume, table: Table, s: Sector, n: nat)
    decreases n
  {
    n == 0 || (s != 0 && Kept(vol, table, s) && Goes(vol, table, vol.next[s], n - 1))
  }

  ghost function After(vol: Volume, table: Table, s: Sector, n: nat): Sector
    requires Goes(vol, table, s, n)
    decreases n
  {
    if n == 0 then s else After(vol, table, vol.next[s], n - 1)
  }

  lemma {:induction false} EndlessGoes(vol: Volume, table: Table, s: Sector, n: nat)
    requires Follow(vol, table, s, n) == Endless
    ensures Goes(vol, table, s, n)
    decreases n
  {
    if n > 0 {
      EndlessGoes(vol, table, vol.next[s], n - 1);
    }
  }

  /** Following on from where `n` links lead. */
  lemma {:induction false} FollowFrom(vol: Volume, table: Table, s: Sector, n: nat, fuel: nat)
    requires Goes(vol, table, s, n)
    ensures Follow(vol, table, s, n + fuel) == Endless <==> Follow(vol, table, After(vol, table, s, n), fuel) == Endless
    decreases n
  {
    if n > 0 {
      FollowFrom(vol, table, vol.next[s], n - 1, fuel);
    }
  }

  lemma {:induction false} GoesOn(vol: Volume, table: Table, s: Sector, n: nat, m: nat)
    requires Goes(vol, table, s, n)
    ensures Goes(vol, table, s, n + m) <==> Goes(vol, table, After(vol, table, s, n), m)
    ensures Goes(vol, table, s, n + m) ==>
      After(vol, table, s, n + m) == After(vol, table, After(vol, table, s, n), m)
    decreases n
  {
    if n > 0 {
      GoesOn(vol, table, vol.next[s], n - 1, m);
    }
  }

  lemma {:induction false} LessFuel(vol: Volume, table: Table, s: Sector, a: nat, b: nat)
    requires a <= b
    ensures Follow(vol, table, s, b) == Endless ==> Follow(vol, table, s, a) == Endless
    ensures Follow(vol, table, s, a) != Endless ==> Follow(vol, table, s, b) == Follow(vol, table, s, a)
    decreases a
  {
    if s != 0 && a > 0 && Kept(vol, table, s) {
      LessFuel(vol, table, vol.next[s], a - 1, b - 1);
    }
  }

  /** A chain that comes back to where it was never ends. */
  lemma {:induction false} CycleNeverEnds(vol: Volume, table: Table, s: Sector, n: nat, fuel: nat)
    requires n > 0 && Goes(vol, table, s, n) && After(vol, table, s, n) == s
    ensures Follow(vol, table, s, fuel) == Endless
    decreases fuel
  {
    if fuel >= n {
      CycleNeverEnds(vol, table, s, n, fuel - n);
      FollowFrom(vol, table, s, n, fuel - n);
    } else {
      GoesPart(vol, table, s, fuel, n);
      FollowFrom(vol, table, s, fuel, 0);
    }
  }

  // More places than blocks: one of them twice.

  function Members(trail: seq<Sector>): set<Sector>
  {
    set x | x in trail
  }

  lemma {:induction false} DistinctCount(trail: seq<Sector>)
    requires forall i, j :: 0 <= i < j < |trail| ==> trail[i] != trail[j]
    ensures |Members(trail)| == |trail|
    decreases |trail|
  {
    if trail != [] {
      var n := |trail| - 1;
      DistinctCount(trail[..n]);
      assert Members(trail) == Members(trail[..n]) + {trail[n]};
    }
  }

  lemma SubsetCount(a: set<Sector>, b: set<Sector>)
    requires a <= b
    ensures |a| <= |b|
  {
    assert a + (b - a) == b;
  }

  lemma Pigeonhole(trail: seq<Sector>, holes: set<Sector>)
    requires |trail| > |holes| && forall x :: x in trail ==> x in holes
    ensures exists i, j :: 0 <= i < j < |trail| && trail[i] == trail[j]
  {
    if forall i, j :: 0 <= i < j < |trail| ==> trail[i] != trail[j] {
      DistinctCount(trail);
      SubsetCount(Members(trail), holes);
    }
  }

  /** A chain longer than there are blocks has been somewhere twice. */
  lemma Revisits(vol: Volume, table: Table, s: Sector) returns (i: nat, j: nat)
    requires Follow(vol, table, s, Limit(vol)) == Endless
    ensures i < j <= Limit(vol) && Goes(vol, table, s, j) && Goes(vol, table, s, i)
    ensures After(vol, table, s, i) == After(vol, table, s, j)
  {
    var n := Limit(vol);
    EndlessGoes(vol, table, s, n);
    forall k: nat | k < n
      ensures Goes(vol, table, s, k) && After(vol, table, s, k) in vol.next
    {
      GoesPart(vol, table, s, k, n);
    }
    var trail := seq(n, k requires 0 <= k < n && Goes(vol, table, s, k) => After(vol, table, s, k));
    Pigeonhole(trail, vol.next.Keys);
    i, j :| 0 <= i < j < |trail| && trail[i] == trail[j];
  }

  lemma {:induction false} GoesPart(vol: Volume, table: Table, s: Sector, k: nat, n: nat)
    requires Goes(vol, table, s, n) && k < n
    ensures Goes(vol, table, s, k) && After(vol, table, s, k) != 0 && Kept(vol, table, After(vol, table, s, k))
    ensures Goes(vol, table, s, k + 1) && After(vol, table, s, k + 1) == vol.next[After(vol, table, s, k)]
    decreases k
  {
    if k > 0 {
      GoesPart(vol, table, vol.next[s], k - 1, n - 1);
    }
  }

  /** Different numbers of links lead to the same block. */
  ghost predicate Meets(vol: Volume, table: Table, s: Sector, i: nat, j: nat)
  {
    i < j && Goes(vol, table, s, i) && Goes(vol, table, s, j) && After(vol, table, s, i) == After(vol, table, s, j)
  }

  /** A chain that comes to the same block twice. */
  ghost predicate Loops(vol: Volume, table: Table, s: Sector)
  {
    exists i: nat, j: nat :: Meets(vol, table, s, i, j)
  }

  lemma MeetingNeverEnds(vol: Volume, table: Table, s: Sector, i: nat, j: nat)
    requires Meets(vol, table, s, i, j)
    ensures !Ends(vol, table, s)
  {
    GoesOn(vol, table, s, i, j - i);
    forall fuel: nat
      ensures Follow(vol, table, s, fuel) == Endless
    {
      CycleNeverEnds(vol, table, After(vol, table, s, i), j - i, fuel);
      FollowFrom(vol, table, s, i, fuel);
      LessFuel(vol, table, s, fuel, i + fuel);
    }
  }

  /** A chain ends if and only if it never comes to the same block twice. */
  lemma EndsExactly(vol: Volume, table: Table, s: Sector)
    ensures Ends(vol, table, s) <==> !Loops(vol, table, s)
  {
    hide Goes, Follow;
    if Loops(vol, table, s) {
      var i: nat, j: nat :| Meets(vol, table, s, i, j);
      MeetingNeverEnds(vol, table, s, i, j);
    }
    if Follow(vol, table, s, Limit(vol)) == Endless {
      var i, j := Revisits(vol, table, s);
      assert Meets(vol, table, s, i, j);
    }
  }

  /** And whether it does can be told by following it as far as there are blocks. */
  lemma EndsWithinLimit(vol: Volume, table: Table, s: Sector)
    ensures Ends(vol, table, s) <==> Follow(vol, table, s, Limit(vol)) != Endless
  {
    if Follow(vol, table, s, Limit(vol)) == Endless {
      var i, j := Revisits(vol, table, s);
      MeetingNeverEnds(vol, table, s, i, j);
    }
  }

  // The whole directory.

  /** What the walk reports from chain `i` on: the visits, the warnings and whether everything
      could be read. */
  datatype Report = Report(ok: bool, visits: seq<Sector>, warnings: seq<Warning>)

  /** Chain `i` of a directory. */
  function ChainOf(vol: Volume, table: Table, i: nat): Chain
    requires i < HT_SIZE
  {
    Follow(vol, table, table[i], Limit(vol))
  }

  function Walked(vol: Volume, table: Table, i: nat): Report
    requires i <= HT_SIZE
    decreases HT_SIZE - i
  {
    if i == HT_SIZE then Report(true, [], [])
    else
      match ChainOf(vol, table, i)
      case Failed(visits) => Report(false, visits, [])
      case Endless => Report(false, [], [])
      case Done(visits, warnings) =>
        var rest := Walked(vol, table, i + 1);
        Report(rest.ok, visits + rest.visits, warnings + rest.warnings)
  }

  /** The walk ends: each chain does, up to the first one that has an unreadable entry. */
  ghost predicate WalkEnds(vol: Volume, table: Table, i: nat)
    requires i <= HT_SIZE
    decreases HT_SIZE - i
  {
    i == HT_SIZE || (Ends(vol, table, table[i]) && (ChainOf(vol, table, i).Done? ==> WalkEnds(vol, table, i + 1)))
  }

  /** The walk from chain `i` on comes to chain `c`: all between could be read to their end. */
  ghost predicate Reached(vol: Volume, table: Table, i: nat, c: nat)
    requires c < HT_SIZE
  {
    i <= c && forall d :: i <= d < c ==> ChainOf(vol, table, d).Done?
  }

  /** The walk ends if and only if no chain that it comes to loops. */
  lemma {:induction false} WalkEndsExactly(vol: Volume, table: Table, i: nat)
    requires i <= HT_SIZE
    ensures WalkEnds(vol, table, i)
       <==> forall c :: 0 <= c < HT_SIZE && Reached(vol, table, i, c) ==> !Loops(vol, table, table[c])
    decreases HT_SIZE - i
  {
    hide Ends, Loops, ChainOf;
    if i < HT_SIZE {
      EndsExactly(vol, table, table[i]);
      WalkEndsExactly(vol, table, i + 1);
      assert Reached(vol, table, i, i);
      if ChainOf(vol, table, i).Done? {
        assert forall c :: i < c < HT_SIZE ==> (Reached(vol, table, i, c) <==> Reached(vol, table, i + 1, c));
      } else {
        assert forall c :: i < c < HT_SIZE ==> !Reached(vol, table, i, c);
      }
    }
  }

  lemma ChainIs(vol: Volume, table: Table, i: nat)
    requires i < HT_SIZE && WalkEnds(vol, table, i)
    ensures ChainOf(vol, table, i) == Follow(vol, table, table[i], Limit(vol)) != Endless
  {
    hide Follow;
    EndsWithinLimit(vol, table, table[i]);
  }

  /** `adfWalkDir`, reporting to a log. It needs just what makes it end. */
  method WalkDir(vol: Volume, dir: Sector) returns (report: Report)
    requires dir in vol.tables ==> WalkEnds(vol, vol.tables[dir], 0)
    ensures dir !in vol.tables ==> report == Report(false, [], [])
    ensures dir in vol.tables ==> report == Walked(vol, vol.tables[dir], 0)
  {
    if dir !in vol.tables {
      return Report(false, [], []);
    }
    hide *;
    var parent := vol.tables[dir];
    report := Report(true, [], []);
    WalkedAhead(report, Walked(vol, parent, 0));
    for i := 0 to HT_SIZE
      invariant WalkEnds(vol, parent, i) && report.ok
      invariant Walked(vol, parent, 0) == Ahead(report, Walked(vol, parent, i))
    {
      ChainIs(vol, parent, i);
      var chain := WalkChain(vol, parent, parent[i]);
      WalkedStep(vol, parent, i, report);
      if chain.Failed? {
        return Report(false, report.visits + chain.visits, report.warnings);
      }
      report := Report(true, report.visits + chain.visits, report.warnings + chain.warnings);
    }
    WalkedLast(vol, parent, report);
  }

  /** What has been reported, and then the rest. */
  function Ahead(before: Report, rest: Report): Report
  {
    Report(rest.ok, before.visits + rest.visits, before.warnings + rest.warnings)
  }

  lemma WalkedAhead(empty: Report, rest: Report)
    requires empty == Report(true, [], [])
    ensures Ahead(empty, rest) == rest
  {
  }

  lemma WalkedStep(vol: Volume, table: Table, i: nat, before: Report)
    requires i < HT_SIZE && WalkEnds(vol, table, i)
    ensures var chain := ChainOf(vol, table, i);
      match chain
      case Failed(visits) =>
        Ahead(before, Walked(vol, table, i)) == Report(false, before.visits + visits, before.warnings)
      case Done(visits, warnings) =>
        && WalkEnds(vol, table, i + 1)
        && Ahead(before, Walked(vol, table, i)) ==
           Ahead(Report(true, before.visits + visits, before.warnings + warnings), Walked(vol, table, i + 1))
      case Endless => true
  {
    hide ChainOf;
    var chain := ChainOf(vol, table, i);
    if chain.Done? {
      var rest := Walked(vol, table, i + 1);
      assert before.visits + (chain.visits + rest.visits) == before.visits + chain.visits + rest.visits;
      assert before.warnings + (chain.warnings + rest.warnings) == before.warnings + chain.warnings + rest.warnings;
    }
  }

  lemma WalkedLast(vol: Volume, table: Table, report: Report)
    requires report.ok
    ensures Ahead(report, Walked(vol, table, HT_SIZE)) == report
  {
  }

  /** The inner loop of the walk. */
  method WalkChain(vol: Volume, parent: Table, head: Sector) returns (chain: Chain)
    requires Follow(vol, parent, head, Limit(vol)) != Endless
    ensures chain == Follow(vol, parent, head, Limit(vol))
  {
    hide *;
    var sector, visits := head, [];
    ghost var fuel := Limit(vol);
    PrecededNone(Follow(vol, parent, head, fuel));
    while sector != 0
      invariant Follow(vol, parent, sector, fuel) != Endless
      invariant Follow(vol, parent, head, Limit(vol)) == Preceded(visits, Follow(vol, parent, sector, fuel))
      decreases fuel
    {
      ChainStep(vol, parent, sector, fuel, visits);
      if sector !in vol.next {
        return Failed(visits);
      }
      visits := visits + [sector];
      var next := vol.next[sector];
      if next == 0 {
        return Done(visits, []);
      }
      if sector == next {
        return Done(visits, [Warning(sector, SelfLink)]);
      }
      var loops := InTable(parent, next);
      if loops {
        return Done(visits, [Warning(sector, HashLoop)]);
      }
      sector, fuel := next, fuel - 1;
    }
    ChainOver(vol, parent, fuel, visits);
    return Done(visits, []);
  }

  lemma PrecededNone(chain: Chain)
    ensures Preceded([], chain) == chain
  {
  }

  lemma ChainOver(vol: Volume, table: Table, fuel: nat, seen: seq<Sector>)
    ensures Preceded(seen, Follow(vol, table, 0, fuel)) == Done(seen, [])
  {
  }

  lemma ChainStep(vol: Volume, table: Table, s: Sector, fuel: nat, seen: seq<Sector>)
    requires s != 0 && Follow(vol, table, s, fuel) != Endless
    ensures fuel > 0
    ensures var chain := Preceded(seen, Follow(vol, table, s, fuel));
      if s !in vol.next then chain == Failed(seen)
      else if vol.next[s] == 0 then chain == Done(seen + [s], [])
      else if vol.next[s] == s then chain == Done(seen + [s], [Warning(s, SelfLink)])
      else if vol.next[s] in table then chain == Done(seen + [s], [Warning(s, HashLoop)])
      else && Follow(vol, table, vol.next[s], fuel - 1) != Endless
           && chain == Preceded(seen + [s], Follow(vol, table, vol.next[s], fuel - 1))
  {
    if Kept(vol, table, s) {
      var rest := Follow(vol, table, vol.next[s], fuel - 1);
      assert seen + ([s] + rest.visits) == seen + [s] + rest.visits;
    }
  }

  function Preceded(seen: seq<Sector>, chain: Chain): Chain
  {
    match chain
    case Done(visits, warnings) => Done(seen + visits, warnings)
    case Failed(visits) => Failed(seen + visits)
    case Endless => Endless
  }

  method InTable(table: Table, s: Sector) returns (found: bool)
    ensures found == (s in table)
  {
    for j := 0 to HT_SIZE
      invariant s !in table[..j]
    {
      if table[j] == s {
        return true;
      }
    }
    assert table[..HT_SIZE] == table;
    return false;
  }

  /** `adfWalkCount`. */
  method WalkCount(vol: Volume, dir: Sector) returns (count: int)
    requires dir in vol.tables ==> WalkEnds(vol, vol.tables[dir], 0)
    ensures count == if dir in vol.tables && Walked(vol, vol.tables[dir], 0).ok
                     then |Walked(vol, vol.tables[dir], 0).visits| else -1
  {
    var report := WalkDir(vol, dir);
    count := if report.ok then |report.visits| else -1;
  }

  // Directories that are damaged no further than the two faults.

  /** No head is in the table twice, and no block is linked from two entries, links that are not
      followed aside. */
  ghost predicate Tidy(vol: Volume, table: Table)
  {
    && (forall i, j :: 0 <= i < j < HT_SIZE && table[i] != 0 ==> table[i] != table[j])
    && (forall a, b :: Kept(vol, table, a) && Kept(vol, table, b) && vol.next[a] == vol.next[b] ==> a == b)
  }

  /** On two ways from heads, no block is met twice. */
  lemma {:induction false} WaysApart(vol: Volume, table: Table, s: Sector, i: nat, t: Sector, j: nat)
    requires Tidy(vol, table) && s in table && t in table
    requires Goes(vol, table, s, i) && Goes(vol, table, t, j)
    requires After(vol, table, s, i) == After(vol, table, t, j)
    ensures i == j && s == t
    decreases i
  {
    hide Tidy, Kept;
    if i > 0 {
      NoHead(vol, table, s, i);
    }
    if j > 0 {
      NoHead(vol, table, t, j);
    }
    if i > 0 && j > 0 {
      GoesPart(vol, table, s, i - 1, i);
      GoesPart(vol, table, t, j - 1, j);
      SameSource(vol, table, After(vol, table, s, i - 1), After(vol, table, t, j - 1));
      WaysApart(vol, table, s, i - 1, t, j - 1);
    }
  }

  lemma SameSource(vol: Volume, table: Table, a: Sector, b: Sector)
    requires Tidy(vol, table) && Kept(vol, table, a) && Kept(vol, table, b) && vol.next[a] == vol.next[b]
    ensures a == b
  {
  }

  lemma NoHead(vol: Volume, table: Table, s: Sector, i: nat)
    requires Goes(vol, table, s, i) && i > 0
    ensures After(vol, table, s, i) !in table
  {
    GoesPart(vol, table, s, i - 1, i);
  }

  lemma TidyEnds(vol: Volume, table: Table, s: Sector)
    requires Tidy(vol, table) && s in table
    ensures Ends(vol, table, s)
  {
    hide Tidy, Follow;
    EndsWithinLimit(vol, table, s);
    if Follow(vol, table, s, Limit(vol)) == Endless {
      var i, j := Revisits(vol, table, s);
      WaysApart(vol, table, s, i, s, j);
    }
  }

  /** What a chain visits is what its kept links lead to, in that order, as far as it can be read. */
  lemma {:induction false} ChainVisits(vol: Volume, table: Table, s: Sector, fuel: nat)
    requires Follow(vol, table, s, fuel) != Endless && s != 0
    ensures var visits := Follow(vol, table, s, fuel).visits;
      && (forall n :: 0 <= n < |visits| ==> Goes(vol, table, s, n) && visits[n] == After(vol, table, s, n))
      && (forall n: nat :: Goes(vol, table, s, n) && After(vol, table, s, n) in vol.next ==> n < |visits|)
      && (Follow(vol, table, s, fuel).Done? ==>
            forall n: nat :: Goes(vol, table, s, n) ==> After(vol, table, s, n) in vol.next)
    decreases fuel
  {
    var chain := Follow(vol, table, s, fuel);
    if Kept(vol, table, s) {
      ChainVisits(vol, table, vol.next[s], fuel - 1);
    }
  }

  /** Reached by kept links from chain `i` or a later one. */
  ghost predicate From(vol: Volume, table: Table, i: nat, b: Sector)
  {
    exists c: nat, n: nat :: i <= c < HT_SIZE && table[c] != 0 && Goes(vol, table, table[c], n)
                             && After(vol, table, table[c], n) == b
  }

  ghost predicate Distinct(s: seq<Sector>)
  {
    forall i, j :: 0 <= i < j < |s| ==> s[i] != s[j]
  }

  lemma DistinctTogether(a: seq<Sector>, b: seq<Sector>)
    requires Distinct(a) && Distinct(b) && forall x :: x in a ==> x !in b
    ensures Distinct(a + b)
  {
    forall i, j | 0 <= i < j < |a + b|
      ensures (a + b)[i] != (a + b)[j]
    {
      if i < |a| <= j {
        assert a[i] in a && b[j - |a|] in b;
      }
    }
  }

  /** What chain `i` visits. */
  lemma OneChain(vol: Volume, table: Table, i: nat)
    requires Tidy(vol, table) && i < HT_SIZE
    ensures ChainOf(vol, table, i) != Endless
    ensures var visits := ChainOf(vol, table, i).visits;
      && Distinct(visits)
      && (forall b :: b in visits ==> From(vol, table, i, b) && !From(vol, table, i + 1, b))
      && (ChainOf(vol, table, i).Done? ==>
            forall b :: From(vol, table, i, b) && !From(vol, table, i + 1, b) ==> b in visits)
  {
    hide Tidy, Follow;
    var s := table[i];
    TidyEnds(vol, table, s);
    EndsWithinLimit(vol, table, s);
    var chain := ChainOf(vol, table, i);
    if s == 0 {
      NoChain(vol, table, Limit(vol));
    } else {
      ChainVisits(vol, table, s, Limit(vol));
      forall m, n | 0 <= m < n < |chain.visits|
        ensures chain.visits[m] != chain.visits[n]
      {
        if chain.visits[m] == chain.visits[n] {
          WaysApart(vol, table, s, m, s, n);
        }
      }
      forall b | b in chain.visits
        ensures From(vol, table, i, b) && !From(vol, table, i + 1, b)
      {
        var n :| 0 <= n < |chain.visits| && chain.visits[n] == b;
        NotFromLater(vol, table, i, n);
      }
    }
    forall b | From(vol, table, i, b) && !From(vol, table, i + 1, b) && chain.Done?
      ensures b in chain.visits
    {
      var c: nat, n: nat :| i <= c < HT_SIZE && table[c] != 0 && Goes(vol, table, table[c], n)
                            && After(vol, table, table[c], n) == b;
      assert c == i;
      assert chain.visits[n] == b;
    }
  }

  lemma NoChain(vol: Volume, table: Table, fuel: nat)
    ensures Follow(vol, table, 0, fuel) == Done([], [])
  {
  }

  lemma NotFromLater(vol: Volume, table: Table, i: nat, n: nat)
    requires Tidy(vol, table) && i < HT_SIZE && table[i] != 0 && Goes(vol, table, table[i], n)
    ensures !From(vol, table, i + 1, After(vol, table, table[i], n))
  {
    hide Kept;
    var b := After(vol, table, table[i], n);
    if From(vol, table, i + 1, b) {
      var c: nat, m: nat :| i + 1 <= c < HT_SIZE && table[c] != 0 && Goes(vol, table, table[c], m)
                            && After(vol, table, table[c], m) == b;
      WaysApart(vol, table, table[i], n, table[c], m);
    }
  }

  /** Such a walk ends, and visits every block that can be reached exactly once, chain by chain
      (if something cannot be read, then up to there). */
  lemma {:induction false} TidyWalk(vol: Volume, table: Table, i: nat)
    requires Tidy(vol, table) && i <= HT_SIZE
    ensures WalkEnds(vol, table, i)
    ensures var report := Walked(vol, table, i);
      && Distinct(report.visits)
      && (forall b :: b in report.visits ==> From(vol, table, i, b))
      && (report.ok ==> forall b :: From(vol, table, i, b) ==> b in report.visits)
    decreases HT_SIZE - i
  {
    hide Tidy, From, ChainOf, Ends, Distinct;
    if i == HT_SIZE {
      FromNone(vol, table);
    } else {
      TidyEnds(vol, table, table[i]);
      OneChain(vol, table, i);
      TidyWalk(vol, table, i + 1);
      FromMore(vol, table, i);
      var chain := ChainOf(vol, table, i);
      if chain.Done? {
        DistinctTogether(chain.visits, Walked(vol, table, i + 1).visits);
      }
    }
  }

  lemma FromNone(vol: Volume, table: Table)
    ensures forall b :: !From(vol, table, HT_SIZE, b)
    ensures Distinct([])
  {
  }

  lemma FromMore(vol: Volume, table: Table, i: nat)
    ensures forall b :: From(vol, table, i + 1, b) ==> From(vol, table, i, b)
  {
  }

  /** What stands at place `k` can be read, and what it links to is visited next, but for an end
      and for the two faults. */
  predicate Passed(vol: Volume, table: Table, visits: seq<Sector>, k: nat)
    requires k < |visits|
  {
    && visits[k] in vol.next
    && var next := vol.next[visits[k]];
      next == 0 || next == visits[k] || next in table || (k + 1 < |visits| && visits[k + 1] == next)
  }

  lemma {:induction false} ChainPasses(vol: Volume, table: Table, s: Sector, fuel: nat)
    requires Follow(vol, table, s, fuel).Done?
    ensures var visits := Follow(vol, table, s, fuel).visits;
      && (s != 0 ==> visits != [] && visits[0] == s)
      && forall k :: 0 <= k < |visits| ==> Passed(vol, table, visits, k)
    decreases fuel
  {
    if s != 0 && Kept(vol, table, s) {
      ChainPasses(vol, table, vol.next[s], fuel - 1);
      var visits, rest := Follow(vol, table, s, fuel).visits, Follow(vol, table, vol.next[s], fuel - 1).visits;
      forall k | 0 <= k < |visits|
        ensures Passed(vol, table, visits, k)
      {
        if k > 0 {
          assert Passed(vol, table, rest, k - 1);
        }
      }
    }
  }

  /** Nothing is left out: every head is visited, and after each entry the one that it links to, but
      for the two faults. */
  lemma {:induction false} NothingLeftOut(vol: Volume, table: Table, i: nat)
    requires i <= HT_SIZE && Walked(vol, table, i).ok
    ensures var visits := Walked(vol, table, i).visits;
      && (forall c :: i <= c < HT_SIZE && table[c] != 0 ==> table[c] in visits)
      && forall k :: 0 <= k < |visits| ==> Passed(vol, table, visits, k)
    decreases HT_SIZE - i
  {
    hide Follow;
    if i < HT_SIZE {
      ChainPasses(vol, table, table[i], Limit(vol));
      NothingLeftOut(vol, table, i + 1);
      var visits, first := Walked(vol, table, i).visits, ChainOf(vol, table, i).visits;
      var rest := Walked(vol, table, i + 1).visits;
      forall k | 0 <= k < |visits|
        ensures Passed(vol, table, visits, k)
      {
        assert if k < |first| then Passed(vol, table, first, k) else Passed(vol, table, rest, k - |first|);
      }
    }
  }

  // Warnings.

  /** A link that was not followed, and why. */
  predicate Cut(vol: Volume, table: Table, w: Warning)
  {
    && w.sector in vol.next && vol.next[w.sector] != 0
    && (if vol.next[w.sector] == w.sector then w.fault == SelfLink
        else vol.next[w.sector] in table && w.fault == HashLoop)
  }

  lemma {:induction false} ChainWarns(vol: Volume, table: Table, s: Sector, fuel: nat)
    requires Follow(vol, table, s, fuel).Done?
    ensures var chain := Follow(vol, table, s, fuel);
      && |chain.warnings| <= 1
      && (forall w :: w in chain.warnings <==> w.sector in chain.visits && Cut(vol, table, w))
    decreases fuel
  {
    if s != 0 && Kept(vol, table, s) {
      ChainWarns(vol, table, vol.next[s], fuel - 1);
    }
  }

  /** There is a warning for each visited entry whose link was cut, and no other. */
  lemma {:induction false} WarnedOnce(vol: Volume, table: Table, i: nat)
    requires i <= HT_SIZE && Walked(vol, table, i).ok
    ensures var report := Walked(vol, table, i);
      forall w :: w in report.warnings <==> w.sector in report.visits && Cut(vol, table, w)
    decreases HT_SIZE - i
  {
    hide Cut, Follow;
    if i < HT_SIZE {
      ChainWarns(vol, table, table[i], Limit(vol));
      WarnedOnce(vol, table, i + 1);
    }
  }

  /** Every warning is about a visited entry, also if not everything can be read. */
  lemma {:induction false} WarnedVisited(vol: Volume, table: Table, i: nat)
    requires i <= HT_SIZE
    ensures var report := Walked(vol, table, i); forall w :: w in report.warnings ==> w.sector in report.visits
    decreases HT_SIZE - i
  {
    hide Cut, Follow;
    if i < HT_SIZE {
      if ChainOf(vol, table, i).Done? {
        ChainWarns(vol, table, table[i], Limit(vol));
      }
      WarnedVisited(vol, table, i + 1);
    }
  }

  /** On such a directory no entry is warned about twice. */
  lemma {:induction false} TidyWarnings(vol: Volume, table: Table, i: nat)
    requires Tidy(vol, table) && i <= HT_SIZE
    ensures var warnings := Walked(vol, table, i).warnings;
      forall m, n :: 0 <= m < n < |warnings| ==> warnings[m].sector != warnings[n].sector
    decreases HT_SIZE - i
  {
    hide Tidy, Follow, From, Cut;
    if i < HT_SIZE && ChainOf(vol, table, i).Done? {
      ChainWarns(vol, table, table[i], Limit(vol));
      TidyWarnings(vol, table, i + 1);
      WarnedVisited(vol, table, i + 1);
      OneChain(vol, table, i);
      TidyWalk(vol, table, i + 1);
      var chain, rest := ChainOf(vol, table, i), Walked(vol, table, i + 1);
      forall n | 0 <= n < |rest.warnings|
        ensures chain.warnings != [] ==> chain.warnings[0].sector != rest.warnings[n].sector
      {
        assert rest.warnings[n] in rest.warnings;
        assert chain.warnings != [] ==> chain.warnings[0] in chain.warnings;
      }
    }
  }

  /** A cycle of blocks that are not heads is followed for ever: the hypothesis is needed. */
  lemma UnnoticedCycle(vol: Volume, table: Table, a: Sector, b: Sector)
    requires a != 0 && b != 0 && a != b && a !in table && b !in table
    requires a in vol.next && b in vol.next && vol.next[a] == b && vol.next[b] == a
    ensures !Ends(vol, table, a)
    ensures forall head :: head in table && head != 0 && head in vol.next && vol.next[head] == a ==>
      !Ends(vol, table, head)
  {
    assert Goes(vol, table, b, 1) && Goes(vol, table, a, 2) && After(vol, table, a, 2) == a by {
      assert Goes(vol, table, a, 0);
    }
    forall fuel: nat
      ensures Follow(vol, table, a, fuel) == Endless
    {
      CycleNeverEnds(vol, table, a, 2, fuel);
    }
    forall head, fuel: nat | head in table && head != 0 && head in vol.next && vol.next[head] == a
      ensures Follow(vol, table, head, fuel) == Endless
    {
      assert fuel > 0 ==> Follow(vol, table, a, fuel - 1) == Endless;
    }
  }
}
