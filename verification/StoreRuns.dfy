// Whole runs of the file store: a chip, its directory and its flash behave as a map from names
// to bytes does, over any sequence of operations.
module StoreRuns {
  import opened Bytes
  import opened Chip
  import opened Layout
  import opened Updates
  import opened Effects
  import opened Scan
  import opened Store
  import opened Creation

  datatype Operation =
    | Create(name: Name, length: nat, align: nat)
    | Remove(name: Name)
    | Write(name: Name, offset: nat, data: seq<byte>)
    | Erase(name: Name)

  /** What the operations mean: the entries handed out so far, and the files. */
  datatype Ideal = Ideal(g: Geometry, dir: seq<Entry>, files: map<Name, seq<byte>>)

  ghost predicate Sensible(op: Operation)
  {
    match op
    case Create(name, length, align) => length < U32 && align < U32
    case Remove(name) => true
    case Write(name, offset, data) => data != [] && offset < U32 && |data| < U32
    case Erase(name) => true
  }

  /** What a caller has to see to before an operation. */
  ghost predicate Allowed(s: Ideal, op: Operation, part: Part)
  {
    Sensible(op) &&
    match op
    case Create(name, length, align) => Affordable(s.g, s.dir, name, length, align, part.Capacity())
    case Write(name, offset, data) => name in s.files ==> Steady(offset, |data|, |s.files[name]|)
    case _ => true
  }

  /** The bytes that a write leaves in a file: programming only clears bits, and stops at its end. */
  function Overwritten(bytes: seq<byte>, offset: nat, data: seq<byte>): seq<byte>
  {
    if offset >= |bytes| then bytes
    else Programmed(bytes, offset, if offset + |data| > |bytes| then data[..|bytes| - offset] else data)
  }

  ghost function Step(s: Ideal, op: Operation, part: Part): Ideal
    requires Sensible(op)
  {
    match op
    case Create(name, length, align) =>
      if Creatable(s.g, s.dir, name, length, align, part.Capacity()) then
        var e := NewEntry(s.g, s.dir, name, FilenameHash(name), length, align);
        s.(dir := s.dir + [e], files := s.files[name := Blanks(e.length)])
      else s
    case Remove(name) =>
      var i := Find(s.dir, name);
      if i >= 0 then s.(dir := Deleted(s.dir, i), files := s.files - {name}) else s
    case Write(name, offset, data) =>
      if Find(s.dir, name) >= 0 && name in s.files
      then s.(files := s.files[name := Overwritten(s.files[name], offset, data)]) else s
    case Erase(name) =>
      var i := Find(s.dir, name);
      if i >= 0 && name in s.files && s.dir[i].address % part.BlockSize() == 0
         && s.dir[i].length % part.BlockSize() == 0
      then s.(files := s.files[name := Blanks(|s.files[name]|)]) else s
  }

  /** What a create that succeeds adds to the ideal store. */
  lemma StepCreates(s: Ideal, name: Name, length: nat, align: nat, part: Part)
    requires Allowed(s, Create(name, length, align), part) && Laid(s.g, s.dir, part.Capacity())
    requires Creatable(s.g, s.dir, name, length, align, part.Capacity())
    ensures var t := Step(s, Create(name, length, align), part);
      && |t.dir| == |s.dir| + 1 && t.dir[..|s.dir|] == s.dir
      && AsAsked(t.dir[|s.dir|], DataEnd(s.g, s.dir), NamesEnd(s.g, s.dir), name, length, align)
      && t.files == s.files[name := Blanks(t.dir[|s.dir|].length)]
  {
    NewEntryAsAsked(s.g, s.dir, name, FilenameHash(name), length, align, part.Capacity());
  }

  ghost predicate AllAllowed(s: Ideal, ops: seq<Operation>, part: Part)
    decreases |ops|
  {
    ops == [] || (Allowed(s, ops[0], part) && AllAllowed(Step(s, ops[0], part), ops[1..], part))
  }

  ghost function Steps(s: Ideal, ops: seq<Operation>, part: Part): Ideal
    requires AllAllowed(s, ops, part)
    decreases |ops|
  {
    if ops == [] then s else Steps(Step(s, ops[0], part), ops[1..], part)
  }

  /** The state of a store, as the ideal one would be. */
  ghost function Now(store: Store): Ideal
    requires store.Valid()
    reads store, store.chip, store.chip.cells
  {
    Ideal(store.g, store.dir, store.View())
  }

  /** Opens the file of that name, if there is one; that changes nothing that can be seen. */
  method OpenFile(store: Store, name: Name) returns (file: File)
    requires store.Valid()
    modifies store.chip, store.chip.cells
    ensures store.Valid() && Formatted(store.chip.cells[..], store.g, store.dir)
    ensures Now(store) == old(Now(store))
    ensures file.Opened(store.dir, Find(store.dir, name)) && fresh(file)
    ensures var i := Find(store.dir, name);
      if i < 0 then name !in store.View()
      else && name in store.View() && store.dir[i].DataEnd() <= store.chip.cells.Length
           && store.View()[name] == Contents(store.chip.cells[..], store.dir[i])
  {
    ghost var img := store.chip.cells[..];
    file := store.Open(name);
    ValidLaid(img, store.g, store.dir);
    HeaderWritten(img, store.chip.cells[..], store.g, store.dir);
    FilesFind(store.chip.cells[..], store.dir, name);
  }

  method DoWrite(store: Store, name: Name, offset: nat, data: seq<byte>)
    requires store.Valid() && Allowed(Now(store), Write(name, offset, data), store.chip.part)
    modifies store.chip, store.chip.cells
    ensures store.Valid() && Now(store) == Step(old(Now(store)), Write(name, offset, data), store.chip.part)
  {
    hide Committed, Spare, Hashed, Files, Find, InRange, Programmed, Overwritten;
    var file := OpenFile(store, name);
    ghost var i := Find(store.dir, name);
    ValidLaid(store.chip.cells[..], store.g, store.dir);
    OpenedAddress(file, store.chip.cells[..], store.g, store.dir, i);
    if file.address > 0 {
      FoundLive(store.dir, name);
      ghost var bytes := store.View()[name];
      store.SeekFile(file, offset);
      var n := store.WriteFile(file, data);
      ClippedWrite(bytes, offset, data, n);
      assert store.View()[name] == Overwritten(bytes, offset, data);
    }
  }

  lemma FoundLive(dir: seq<Entry>, name: Name)
    requires Find(dir, name) >= 0
    ensures dir[Find(dir, name)].live && dir[Find(dir, name)].name == name
  {
  }

  lemma ClippedWrite(bytes: seq<byte>, offset: nat, data: seq<byte>, n: nat)
    requires data != [] && offset < U32 && |data| < U32 && Steady(offset, |data|, |bytes|)
    requires |bytes| < U32 && n == Store.Clipped(offset, |data|, |bytes|)
    ensures n == 0 ==> Overwritten(bytes, offset, data) == bytes
    ensures n > 0 ==>
      && offset + n <= |bytes| && n <= |data|
      && Overwritten(bytes, offset, data) == Programmed(bytes, offset, data[..n])
  {
    ClipExactly(0, offset, |data|, |bytes|);
    assert data[..|data|] == data;
  }

  method DoErase(store: Store, name: Name)
    requires store.Valid()
    modifies store.chip, store.chip.cells
    ensures store.Valid() && Now(store) == Step(old(Now(store)), Erase(name), store.chip.part)
  {
    hide Committed, Spare, Hashed, Files, Find, InRange, Erased;
    var file := OpenFile(store, name);
    ghost var i, files := Find(store.dir, name), store.View();
    ValidLaid(store.chip.cells[..], store.g, store.dir);
    OpenedAddress(file, store.chip.cells[..], store.g, store.dir, i);
    if file.address > 0 {
      FoundLive(store.dir, name);
      assert |files[name]| == 0 ==> files[name] == Blanks(0) && files[name := Blanks(0)] == files;
      store.EraseFile(file);
    }
  }

  method DoCreate(store: Store, name: Name, length: nat, align: nat)
    requires store.Valid() && Allowed(Now(store), Create(name, length, align), store.chip.part)
    modifies store`dir, store.chip, store.chip.cells
    ensures store.Valid() && Now(store) == Step(old(Now(store)), Create(name, length, align), store.chip.part)
  {
    hide Committed, Spare, Hashed, Files, Find, Creatable, Affordable, NewEntry, DataEnd, FilenameHash, StepsShow;
    hide TakesNew, Written, OnChip, Roomy, NameOnChip;
    AffordedName(store.chip.cells[..], store.g, store.dir, name, length, align);
    AffordedRoom(store.g, store.dir, name, length, align, store.chip.cells.Length);
    var r := store.Create(name, length, align);
  }

  method DoRemove(store: Store, name: Name)
    requires store.Valid()
    modifies store`dir, store.chip, store.chip.cells
    ensures store.Valid() && Now(store) == Step(old(Now(store)), Remove(name), store.chip.part)
  {
    hide Committed, Spare, Hashed, Files, Find;
    ghost var img, files := store.chip.cells[..], store.View();
    ValidLaid(img, store.g, store.dir);
    FilesFind(img, store.dir, name);
    assert name !in files ==> files - {name} == files;
    var r := store.Remove(name);
  }

  /** Any run of operations leaves the directory and the files that the ideal store has, and the
      layout that goes with them. */
  method Run(store: Store, ops: seq<Operation>)
    requires store.Valid() && AllAllowed(Now(store), ops, store.chip.part)
    modifies store`dir, store.chip, store.chip.cells
    ensures store.Valid() && Now(store) == Steps(old(Now(store)), ops, store.chip.part)
    ensures Laid(store.g, store.dir, store.chip.cells.Length)
  {
    hide Committed, Spare, Hashed, Files, Find, Step, Laid;
    for k := 0 to |ops|
      invariant store.Valid() && AllAllowed(Now(store), ops[k..], store.chip.part)
      invariant Steps(Now(store), ops[k..], store.chip.part) == Steps(old(Now(store)), ops, store.chip.part)
    {
      NextStep(Now(store), ops[k..], store.chip.part);
      assert ops[k..][0] == ops[k] && ops[k..][1..] == ops[k + 1..];
      match ops[k] {
        case Create(name, length, align) => DoCreate(store, name, length, align);
        case Remove(name) => DoRemove(store, name);
        case Write(name, offset, data) => DoWrite(store, name, offset, data);
        case Erase(name) => DoErase(store, name);
      }
    }
    ValidLaid(store.chip.cells[..], store.g, store.dir);
  }

  lemma NextStep(s: Ideal, ops: seq<Operation>, part: Part)
    requires AllAllowed(s, ops, part) && ops != []
    ensures Allowed(s, ops[0], part) && AllAllowed(Step(s, ops[0], part), ops[1..], part)
    ensures Steps(s, ops, part) == Steps(Step(s, ops[0], part), ops[1..], part)
  {
  }

  /** From a blank chip on. */
  method RunFromBlank(part: Part, ops: seq<Operation>) returns (store: Store)
    requires part.Present() && AllAllowed(Ideal(DEFAULT, [], map[]), ops, part)
    ensures store.Valid() && Now(store) == Steps(Ideal(DEFAULT, [], map[]), ops, part)
    ensures Laid(store.g, store.dir, part.Capacity())
  {
    store := new Store(part);
    assert Now(store) == Ideal(DEFAULT, [], map[]);
    Run(store, ops);
  }
}
