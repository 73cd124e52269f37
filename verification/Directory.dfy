/** filesys/directory.c: a directory is a file of fixed-size entries; it refines a finite map
    from names to inode sectors. */
module Directory {

  import opened Lists
  import opened Blocks
  import opened InodeData

  const NAME_MAX := 14
  const ENTRY_SIZE := 20

  /** A C string without its terminating NUL. */
  type Name = s: seq<Byte> | forall i :: 0 <= i < |s| ==> s[i] != 0

  datatype Entry = Entry(sector: nat, name: seq<Byte>, inUse: bool)

  // ----- Entries as bytes -----

  /** The C string in a buffer. */
  function CString(b: seq<Byte>): (r: Name)
    ensures |r| <= |b|
  {
    if |b| == 0 || b[0] == 0 then [] else [b[0]] + CString(b[1..])
  }

  lemma {:induction false} CStringOf(name: Name, rest: seq<Byte>)
    ensures CString(name + [0] + rest) == name
  {
    var b := name + [0] + rest;
    if |name| > 0 {
      assert b[1..] == name[1..] + [0] + rest;
      CStringOf(name[1..], rest);
    }
  }

  function DecodeEntry(raw: seq<Byte>): Entry
    requires |raw| == ENTRY_SIZE
  {
    Entry(Decode32(raw), CString(raw[4..19]), raw[19] != 0)
  }

  /** The entry that dir_add() writes; the bytes of the name field after the NUL stay what
      they were in the local variable, `stale`. */
  function EncodeEntry(name: Name, sector: nat, stale: seq<Byte>): (raw: seq<Byte>)
    requires |name| <= NAME_MAX && sector < WORD_LIMIT && |stale| == ENTRY_SIZE
    ensures |raw| == ENTRY_SIZE
  {
    Encode32(sector) + name + [0] + stale[5 + |name|..19] + [1]
  }

  function ClearInUse(raw: seq<Byte>): (r: seq<Byte>)
    requires |raw| == ENTRY_SIZE
    ensures |r| == ENTRY_SIZE && DecodeEntry(r) == DecodeEntry(raw).(inUse := false)
  {
    var r := raw[..19] + [0];
    assert r[4..19] == raw[4..19];
    r
  }

  lemma EntryRoundTrip(name: Name, sector: nat, stale: seq<Byte>)
    requires |name| <= NAME_MAX && sector < WORD_LIMIT && |stale| == ENTRY_SIZE
    ensures DecodeEntry(EncodeEntry(name, sector, stale)) == Entry(sector, name, true)
  {
    var raw := EncodeEntry(name, sector, stale);
    var rest := stale[5 + |name|..19];
    assert raw == Encode32(sector) + (name + [0] + rest + [1]);
    WordRoundTrip(sector, name + [0] + rest + [1]);
    assert raw[4..19] == name + [0] + rest;
    CStringOf(name, rest);
  }

  function Raw(bytes: seq<Byte>, k: nat): (r: seq<Byte>)
    requires k < |bytes| / ENTRY_SIZE
    ensures |r| == ENTRY_SIZE
  {
    bytes[k * ENTRY_SIZE..k * ENTRY_SIZE + ENTRY_SIZE]
  }

  function Entries(bytes: seq<Byte>): (es: seq<Entry>)
    ensures |es| == |bytes| / ENTRY_SIZE
  {
    seq(|bytes| / ENTRY_SIZE, k requires 0 <= k < |bytes| / ENTRY_SIZE => DecodeEntry(Raw(bytes, k)))
  }

  /** Rewriting the bytes of one entry changes that entry alone; a write past the last whole
      entry changes none. */
  lemma EntriesAfterSplice(bytes: seq<Byte>, k: nat, data: seq<Byte>)
    requires k * ENTRY_SIZE + |data| <= |bytes|
    requires if k < |bytes| / ENTRY_SIZE then |data| == ENTRY_SIZE else k == |bytes| / ENTRY_SIZE
    ensures Entries(Splice(bytes, k * ENTRY_SIZE, data)) ==
            if k < |bytes| / ENTRY_SIZE then Entries(bytes)[k := DecodeEntry(data)] else Entries(bytes)
  {
    var bytes' := Splice(bytes, k * ENTRY_SIZE, data);
    forall j: nat | j < |bytes| / ENTRY_SIZE ensures Raw(bytes', j) == if j == k then data else Raw(bytes, j) {
    }
  }

  // ----- The operations on entries -----

  /** lookup() from entry k on.  Each read of an entry needs a bounce buffer; `limit` is the
      number of reads that get one, and a failed read ends the search. */
  function Find(es: seq<Entry>, name: Name, k: nat, limit: nat): (r: Option<nat>)
    ensures r.Some? ==> k <= r.value < |es| && r.value < limit && es[r.value].inUse && es[r.value].name == name
    ensures forall j :: k <= j < |es| && j < limit && (r.Some? ==> j < r.value) ==> !(es[j].inUse && es[j].name == name)
    decreases |es| - k
  {
    if k >= |es| || k >= limit then None
    else if es[k].inUse && es[k].name == name then Some(k)
    else Find(es, name, k + 1, limit)
  }

  /** The search of dir_add() for a slot, with the same treatment of failed reads. */
  function Slot(es: seq<Entry>, k: nat, limit: nat): (r: nat)
    requires k <= |es|
    ensures k <= r <= |es| && (r < |es| && r < limit ==> !es[r].inUse)
    ensures forall j :: k <= j < r ==> es[j].inUse
    ensures r < |es| && es[r].inUse ==> limit <= r
    decreases |es| - k
  {
    if k == |es| || k >= limit || !es[k].inUse then k else Slot(es, k + 1, limit)
  }

  /** The search stopped, for lack of memory, at a slot in use. */
  predicate SlotUsed(es: seq<Entry>, limit: nat) {
    var k := Slot(es, 0, limit);
    k < |es| && es[k].inUse
  }

  predicate ValidName(name: Name) {
    0 < |name| <= NAME_MAX
  }

  /** dir_add(): the first search gets `lim1` buffers, the second `lim2`, the write one if
      `memory`. */
  function Add(es: seq<Entry>, name: Name, sector: nat, lim1: nat, lim2: nat, memory: bool): (r: (seq<Entry>, bool)) {
    if !ValidName(name) || Find(es, name, 0, lim1).Some? then (es, false)
    else
      var k := Slot(es, 0, lim2);
      if k < |es| && memory then (es[k := Entry(sector, name, true)], true) else (es, false)
  }

  /** dir_add() writes the entry: the name is valid, its search did not come upon it, the search
      for a slot ended within the directory, and there is memory for the write. */
  predicate CanAdd(es: seq<Entry>, name: Name, lim1: nat, lim2: nat, memory: bool) {
    ValidName(name) && Find(es, name, 0, lim1).None? && Slot(es, 0, lim2) < |es| && memory
  }

  lemma CanAddIff(es: seq<Entry>, name: Name, sector: nat, lim1: nat, lim2: nat, memory: bool)
    ensures Add(es, name, sector, lim1, lim2, memory).1 <==> CanAdd(es, name, lim1, lim2, memory)
  {
  }

  /** The effect of dir_remove() on the entries, once the inode could be opened. */
  function Erase(es: seq<Entry>, name: Name, limit: nat, memory: bool): (r: (seq<Entry>, bool)) {
    match Find(es, name, 0, limit)
    case None => (es, false)
    case Some(k) => if memory then (es[k := es[k].(inUse := false)], true) else (es, false)
  }

  // ----- The map -----

  /** The map that the entries stand for; a later entry hides an earlier one. */
  function MapOf(es: seq<Entry>): (m: map<seq<Byte>, nat>) {
    if es == [] then map[]
    else
      var last := es[|es| - 1];
      var m := MapOf(es[..|es| - 1]);
      if last.inUse then m[last.name := last.sector] else m
  }

  ghost predicate UniqueNames(es: seq<Entry>) {
    forall i, j :: 0 <= i < j < |es| && es[i].inUse && es[j].inUse ==> es[i].name != es[j].name
  }

  lemma {:induction false} MapOfEntries(es: seq<Entry>)
    requires UniqueNames(es)
    ensures forall k :: 0 <= k < |es| && es[k].inUse ==>
            es[k].name in MapOf(es) && MapOf(es)[es[k].name] == es[k].sector
    ensures forall name :: name in MapOf(es) ==> exists k :: 0 <= k < |es| && es[k].inUse && es[k].name == name
  {
    if es != [] {
      var init := es[..|es| - 1];
      MapOfEntries(init);
      forall name | name in MapOf(es) ensures exists k :: 0 <= k < |es| && es[k].inUse && es[k].name == name {
        if name in MapOf(init) {
          var k :| 0 <= k < |init| && init[k].inUse && init[k].name == name;
          assert es[k].name == name;
        } else {
          assert es[|es| - 1].name == name;
        }
      }
    }
  }

  /** Lookup agrees with the map. */
  lemma LookupAgrees(es: seq<Entry>, name: Name)
    requires UniqueNames(es)
    ensures Find(es, name, 0, |es|).Some? <==> name in MapOf(es)
    ensures name in MapOf(es) ==> MapOf(es)[name] == es[Find(es, name, 0, |es|).value].sector
  {
    MapOfEntries(es);
    if name in MapOf(es) {
      var k :| 0 <= k < |es| && es[k].inUse && es[k].name == name;
    }
  }

  /** Two sets of entries with unique names that relate to the map `m` in this way have it as
      their map. */
  lemma MapIs(es: seq<Entry>, m: map<seq<Byte>, nat>)
    requires UniqueNames(es)
    requires forall k :: 0 <= k < |es| && es[k].inUse ==> es[k].name in m && m[es[k].name] == es[k].sector
    requires forall name :: name in m ==> exists k :: 0 <= k < |es| && es[k].inUse && es[k].name == name
    ensures MapOf(es) == m
  {
    MapOfEntries(es);
    forall name | name in m ensures name in MapOf(es) && MapOf(es)[name] == m[name] {
      var k :| 0 <= k < |es| && es[k].inUse && es[k].name == name;
    }
  }

  lemma FillSlot(es: seq<Entry>, k: nat, name: Name, sector: nat)
    requires UniqueNames(es) && k < |es| && !es[k].inUse && name !in MapOf(es)
    ensures UniqueNames(es[k := Entry(sector, name, true)])
    ensures MapOf(es[k := Entry(sector, name, true)]) == MapOf(es)[name := sector]
  {
    MapOfEntries(es);
    var es' := es[k := Entry(sector, name, true)];
    var m := MapOf(es)[name := sector];
    forall x | x in m ensures exists j :: 0 <= j < |es'| && es'[j].inUse && es'[j].name == x {
      if x == name {
        assert es'[k].name == x;
      } else {
        var j :| 0 <= j < |es| && es[j].inUse && es[j].name == x;
        assert es'[j].name == x;
      }
    }
    MapIs(es', m);
  }

  lemma ClearSlot(es: seq<Entry>, k: nat)
    requires UniqueNames(es) && k < |es| && es[k].inUse
    ensures UniqueNames(es[k := es[k].(inUse := false)])
    ensures MapOf(es[k := es[k].(inUse := false)]) == MapOf(es) - {es[k].name}
  {
    MapOfEntries(es);
    var es' := es[k := es[k].(inUse := false)];
    var m := MapOf(es) - {es[k].name};
    forall x | x in m ensures exists j :: 0 <= j < |es'| && es'[j].inUse && es'[j].name == x {
      var j :| 0 <= j < |es| && es[j].inUse && es[j].name == x;
      assert es'[j].name == x;
    }
    MapIs(es', m);
  }

  /** dir_add() with enough memory: it inserts exactly when the name is valid and new and a
      slot is free, and otherwise changes nothing. */
  lemma AddInserts(es: seq<Entry>, name: Name, sector: nat)
    requires UniqueNames(es)
    ensures var (es', ok) := Add(es, name, sector, |es|, |es|, true);
            && UniqueNames(es')
            && MapOf(es') == (if ok then MapOf(es)[name := sector] else MapOf(es))
            && (ok <==> ValidName(name) && name !in MapOf(es) && exists k :: 0 <= k < |es| && !es[k].inUse)
  {
    LookupAgrees(es, name);
    var k := Slot(es, 0, |es|);
    if k < |es| && name !in MapOf(es) {
      FillSlot(es, k, name, sector);
    }
  }

  /** The valid names are those that fit, with a NUL, into the 15 bytes of an entry. */
  lemma ValidNameFits(name: Name)
    ensures ValidName(name) <==> name != [] && |name| + 1 <= 15
  {
  }

  predicate Erased(es: seq<Entry>, k: int, name: Name, es': seq<Entry>) {
    0 <= k < |es| && es[k].inUse && es[k].name == name && es' == es[k := es[k].(inUse := false)]
  }

  /** dir_remove() changes the directory only if the search comes upon the name and there is memory
      for the write, and then only that the one entry is not in use any more. */
  lemma EraseChanges(es: seq<Entry>, name: Name, limit: nat, memory: bool)
    ensures var (es', ok) := Erase(es, name, limit, memory);
            && (ok <==> memory && exists k :: 0 <= k < |es| && k < limit && es[k].inUse && es[k].name == name)
            && (!ok ==> es' == es)
            && (ok ==> exists k :: Erased(es, k, name, es'))
  {
    var r := Find(es, name, 0, limit);
    if r.Some? {
      assert es[r.value].inUse && es[r.value].name == name;
      assert memory ==> Erased(es, r.value, name, Erase(es, name, limit, memory).0);
    }
  }

  /** dir_remove() deletes exactly the name. */
  lemma EraseDeletes(es: seq<Entry>, name: Name)
    requires UniqueNames(es)
    ensures var (es', ok) := Erase(es, name, |es|, true);
            && UniqueNames(es')
            && (ok <==> name in MapOf(es))
            && MapOf(es') == MapOf(es) - {name}
  {
    LookupAgrees(es, name);
    var r := Find(es, name, 0, |es|);
    if r.Some? {
      ClearSlot(es, r.value);
    }
  }

  /** What dir_add() promises: the name is added, or nothing happens. */
  ghost predicate AddIsSound(es: seq<Entry>, name: Name, sector: nat, es': seq<Entry>, ok: bool) {
    && UniqueNames(es')
    && (if ok then name !in MapOf(es) && MapOf(es') == MapOf(es)[name := sector] else es' == es)
  }

  /** When memory runs short a search can end early; then dir_add() keeps its promise unless
      it goes on to write and either missed the name or took a slot in use. */
  lemma AddSoundIff(es: seq<Entry>, name: Name, sector: nat, lim1: nat, lim2: nat, memory: bool)
    requires UniqueNames(es) && ValidName(name)
    ensures var (es', ok) := Add(es, name, sector, lim1, lim2, memory);
            var missed := Find(es, name, 0, lim1).None? && name in MapOf(es);
            var taken := Find(es, name, 0, lim1).None? && SlotUsed(es, lim2);
            AddIsSound(es, name, sector, es', ok) <==> !(memory && Slot(es, 0, lim2) < |es| && (missed || taken))
  {
    var (es', ok) := Add(es, name, sector, lim1, lim2, memory);
    var k := Slot(es, 0, lim2);
    MapOfEntries(es);
    LookupAgrees(es, name);
    if ok && name !in MapOf(es) {
      if es[k].inUse {
        Overwrites(es, k, name, sector);
      } else {
        FillSlot(es, k, name, sector);
      }
    }
  }

  /** Taking a slot in use loses the name that was there. */
  lemma Overwrites(es: seq<Entry>, k: nat, name: Name, sector: nat)
    requires UniqueNames(es) && k < |es| && es[k].inUse && name !in MapOf(es)
    ensures es[k].name in MapOf(es) && es[k].name != name
    ensures UniqueNames(es[k := Entry(sector, name, true)]) ==> es[k].name !in MapOf(es[k := Entry(sector, name, true)])
  {
    var es' := es[k := Entry(sector, name, true)];
    MapOfEntries(es);
    if UniqueNames(es') {
      MapOfEntries(es');
      var lost := es[k].name;
      forall j | 0 <= j < |es'| && es'[j].inUse ensures es'[j].name != lost {
        assert j < k ==> es[j].name != lost;
      }
    }
  }

  /** The failing case exists: one entry, no memory for the searches, memory for the write. */
  lemma ShortOfMemoryLosesEntry()
    ensures var es := [Entry(5, [97], true)];
            var (es', ok) := Add(es, [98], 6, 0, 0, true);
            && UniqueNames(es) && ok
            && MapOf(es) == map[[97] := 5] && MapOf(es') == map[[98] := 6]
  {
    var es := [Entry(5, [97], true)];
    assert es[..0] == [];
    var es' := Add(es, [98], 6, 0, 0, true).0;
    assert es' == [Entry(6, [98], true)] && es'[..0] == [];
  }

  // ----- Listing -----

  /** dir_readdir() from entry `pos`, when `limit` reads find a bounce buffer: the entry
      returned, and the new position. */
  function NextInUse(es: seq<Entry>, pos: nat, limit: nat): (r: (Option<nat>, nat))
    requires pos <= |es|
    ensures r.0.Some? ==> pos <= r.0.value < |es| && es[r.0.value].inUse
    ensures r.0.Some? ==> r.1 == r.0.value + 1 && r.1 <= pos + limit
    ensures r.0.None? ==> r.1 == if |es| - pos <= limit then |es| else pos + limit
    ensures forall j :: pos <= j < r.1 && Some(j) != r.0 ==> !es[j].inUse
    decreases |es| - pos
  {
    if pos == |es| || limit == 0 then (None, pos)
    else if es[pos].inUse then (Some(pos), pos + 1)
    else NextInUse(es, pos + 1, limit - 1)
  }

  /** The names that repeated calls from `pos` return, until one returns false. */
  function Listing(es: seq<Entry>, pos: nat): (names: seq<seq<Byte>>)
    requires pos <= |es|
    decreases |es| - pos
  {
    var (k, next) := NextInUse(es, pos, |es|);
    if k.None? then [] else [es[k.value].name] + Listing(es, next)
  }

  lemma {:induction false} ListingFrom(es: seq<Entry>, pos: nat)
    requires pos <= |es| && UniqueNames(es)
    ensures NoDup(Listing(es, pos))
    ensures forall name :: name in Listing(es, pos) <==>
            exists k :: pos <= k < |es| && es[k].inUse && es[k].name == name
    decreases |es| - pos
  {
    var (r, next) := NextInUse(es, pos, |es|);
    if r.Some? {
      ListingFrom(es, next);
      var first := es[r.value].name;
      assert first !in Listing(es, next);
      forall name | exists k :: pos <= k < |es| && es[k].inUse && es[k].name == name
        ensures name in Listing(es, pos)
      {
        var k :| pos <= k < |es| && es[k].inUse && es[k].name == name;
        if k >= next {
          assert name in Listing(es, next);
        }
      }
    }
  }

  /** Repeated dir_readdir() lists every name in the directory, once. */
  lemma ListingIsDomain(es: seq<Entry>)
    requires UniqueNames(es)
    ensures NoDup(Listing(es, 0))
    ensures forall name :: name in Listing(es, 0) <==> name in MapOf(es)
  {
    ListingFrom(es, 0);
    MapOfEntries(es);
    forall name | name in Listing(es, 0) ensures name in MapOf(es) {
      var k :| 0 <= k < |es| && es[k].inUse && es[k].name == name;
    }
  }

  // ----- The operations on the device -----

  /** What is left in the entry variable of dir_add() after its search stopped at slot `k`;
      `stack` is what it held before any read. */
  function Scratch(bytes: seq<Byte>, k: nat, limit: nat, stack: seq<Byte>): (r: seq<Byte>)
    requires k <= |bytes| / ENTRY_SIZE && |stack| == ENTRY_SIZE
    ensures |r| == ENTRY_SIZE
  {
    if k < |bytes| / ENTRY_SIZE && k < limit then Raw(bytes, k)
    else if k > 0 then Raw(bytes, k - 1)
    else stack
  }

  /** The device after dir_add() on the directory file `d`. */
  function AddToDisk(disk: Disk, d: InodeDisk, name: Name, sector: nat, lim1: nat, lim2: nat, memory: bool,
                     stack: seq<Byte>): (r: Disk)
    requires Formed(disk) && Fits(disk, d) && sector < WORD_LIMIT && |stack| == ENTRY_SIZE
    ensures Formed(r) && |r| == |disk|
  {
    var bytes := Contents(disk, d);
    var es := Entries(bytes);
    if !ValidName(name) || Find(es, name, 0, lim1).Some? then disk
    else
      var k := Slot(es, 0, lim2);
      var raw := EncodeEntry(name, sector, Scratch(bytes, k, lim2, stack));
      WriteBytes(disk, d.start, k * ENTRY_SIZE, raw[..Moved(d.length, k * ENTRY_SIZE, ENTRY_SIZE, memory)])
  }

  /** The device after the entry of `name` is erased. */
  function EraseOnDisk(disk: Disk, d: InodeDisk, k: nat, memory: bool): (r: Disk)
    requires Formed(disk) && Fits(disk, d) && k < d.length / ENTRY_SIZE
    ensures Formed(r) && |r| == |disk|
  {
    var raw := ClearInUse(Raw(Contents(disk, d), k));
    WriteBytes(disk, d.start, k * ENTRY_SIZE, raw[..Moved(d.length, k * ENTRY_SIZE, ENTRY_SIZE, memory)])
  }

  lemma EntryMoved(length: nat, k: nat, memory: bool)
    requires k <= length / ENTRY_SIZE
    ensures Moved(length, k * ENTRY_SIZE, ENTRY_SIZE, memory) ==
            if !memory then 0 else if k < length / ENTRY_SIZE then ENTRY_SIZE else length - k * ENTRY_SIZE
    ensures Moved(length, k * ENTRY_SIZE, ENTRY_SIZE, memory) == ENTRY_SIZE <==> memory && k < length / ENTRY_SIZE
  {
  }

  lemma EntryWritten(disk: Disk, d: InodeDisk, k: nat, raw: seq<Byte>, memory: bool)
    requires Formed(disk) && Fits(disk, d) && k <= d.length / ENTRY_SIZE && |raw| == ENTRY_SIZE
    ensures var disk' :=
            WriteBytes(disk, d.start, k * ENTRY_SIZE, raw[..Moved(d.length, k * ENTRY_SIZE, ENTRY_SIZE, memory)]);
            && Entries(Contents(disk', d))
               == (if memory && k < d.length / ENTRY_SIZE then Entries(Contents(disk, d))[k := DecodeEntry(raw)]
                   else Entries(Contents(disk, d)))
            && forall b :: 0 <= b < |disk| && !InExtent(d, b) ==> disk'[b] == disk[b]
  {
    hide Entries, Contents, WriteBytes, Splice, DecodeEntry, InExtent, Moved;
    EntryMoved(d.length, k, memory);
    var data := raw[..Moved(d.length, k * ENTRY_SIZE, ENTRY_SIZE, memory)];
    if memory {
      WriteBytesContents(disk, d, k * ENTRY_SIZE, data);
      EntriesAfterSplice(Contents(disk, d), k, data);
      forall b | 0 <= b < |disk| && !InExtent(d, b)
        ensures WriteBytes(disk, d.start, k * ENTRY_SIZE, data)[b] == disk[b] {
        WriteBytesFrame(disk, d, k * ENTRY_SIZE, data, b);
      }
      assert |data| == ENTRY_SIZE ==> data == raw;
    } else {
      assert data == [];
      WriteNothing(disk, d.start, k * ENTRY_SIZE);
    }
  }

  /** dir_add() on the device is `Add` on the entries, and touches no sector outside the
      directory file. */
  lemma AddToDiskEntries(disk: Disk, d: InodeDisk, name: Name, sector: nat, lim1: nat, lim2: nat, memory: bool,
                         stack: seq<Byte>)
    requires Formed(disk) && Fits(disk, d) && sector < WORD_LIMIT && |stack| == ENTRY_SIZE
    ensures var disk' := AddToDisk(disk, d, name, sector, lim1, lim2, memory, stack);
            && Entries(Contents(disk', d)) == Add(Entries(Contents(disk, d)), name, sector, lim1, lim2, memory).0
            && forall b :: 0 <= b < |disk| && !InExtent(d, b) ==> disk'[b] == disk[b]
  {
    hide Entries, Contents, WriteBytes, DecodeEntry, EncodeEntry, InExtent, Moved, Scratch, Find, Slot;
    var bytes := Contents(disk, d);
    var es := Entries(bytes);
    if ValidName(name) && Find(es, name, 0, lim1).None? {
      var k := Slot(es, 0, lim2);
      var scratch := Scratch(bytes, k, lim2, stack);
      EntryRoundTrip(name, sector, scratch);
      EntryWritten(disk, d, k, EncodeEntry(name, sector, scratch), memory);
    }
  }

  lemma EraseOnDiskEntries(disk: Disk, d: InodeDisk, k: nat, memory: bool)
    requires Formed(disk) && Fits(disk, d) && k < d.length / ENTRY_SIZE
    ensures var disk', es := EraseOnDisk(disk, d, k, memory), Entries(Contents(disk, d));
            && Entries(Contents(disk', d)) == (if memory then es[k := es[k].(inUse := false)] else es)
            && forall b :: 0 <= b < |disk| && !InExtent(d, b) ==> disk'[b] == disk[b]
  {
    EntryWritten(disk, d, k, ClearInUse(Raw(Contents(disk, d), k)), memory);
  }

  // ----- struct dir -----

  class Dir {
    const dev: Device
    const inode: InodeDisk
    var pos: nat

    ghost predicate Valid()
      reads this, dev
    {
      Formed(dev.disk) && Fits(dev.disk, inode)
    }

    ghost function Bytes(): seq<Byte>
      requires Valid()
      reads this, dev
    {
      Contents(dev.disk, inode)
    }

    /** dir_open(). */
    constructor (dev: Device, inode: InodeDisk)
      requires Formed(dev.disk) && Fits(dev.disk, inode)
      ensures Valid() && this.dev == dev && this.inode == inode && pos == 0
    {
      this.dev, this.inode, pos := dev, inode, 0;
    }

    /** The read of entry k that all loops perform; None is a short read. */
    method ReadEntry(k: nat, memory: bool) returns (raw: Option<seq<Byte>>)
      requires Valid() && k <= inode.length / ENTRY_SIZE
      ensures raw == if memory && k < |Bytes()| / ENTRY_SIZE then Some(Raw(Bytes(), k)) else None
    {
      EntryMoved(inode.length, k, memory);
      var buffer := new Byte[ENTRY_SIZE];
      var n := dev.ReadAt(inode, buffer, ENTRY_SIZE, k * ENTRY_SIZE, memory);
      if n == ENTRY_SIZE {
        assert buffer[..] == Bytes()[k * ENTRY_SIZE..k * ENTRY_SIZE + ENTRY_SIZE];
        raw := Some(buffer[..]);
      } else {
        raw := None;
      }
    }

    /** lookup(). */
    method Lookup(name: Name, limit: nat) returns (r: Option<nat>, raw: seq<Byte>)
      requires Valid()
      ensures r == Find(Entries(Bytes()), name, 0, limit)
      ensures r.Some? ==> raw == Raw(Bytes(), r.value)
    {
      hide Contents, CString, Decode32;
      var k := 0;
      raw := [];
      var e := ReadEntry(k, k < limit);
      while e.Some?
        invariant k <= inode.length / ENTRY_SIZE
        invariant e == if k < limit && k < |Bytes()| / ENTRY_SIZE then Some(Raw(Bytes(), k)) else None
        invariant Find(Entries(Bytes()), name, 0, limit) == Find(Entries(Bytes()), name, k, limit)
        decreases inode.length / ENTRY_SIZE - k
      {
        var entry := DecodeEntry(e.value);
        if entry.inUse && entry.name == name {
          return Some(k), e.value;
        }
        k := k + 1;
        e := ReadEntry(k, k < limit);
      }
      return None, raw;
    }

    /** The search for a free slot in dir_add(); `e` is the entry variable afterwards. */
    method FindSlot(limit: nat, stack: seq<Byte>) returns (k: nat, e: seq<Byte>)
      requires Valid() && |stack| == ENTRY_SIZE
      ensures k == Slot(Entries(Bytes()), 0, limit)
      ensures e == Scratch(Bytes(), k, limit, stack)
    {
      hide Contents, CString, Decode32;
      k, e := 0, stack;
      var read := ReadEntry(k, k < limit);
      while read.Some?
        invariant k <= inode.length / ENTRY_SIZE && |e| == ENTRY_SIZE
        invariant read == if k < limit && k < |Bytes()| / ENTRY_SIZE then Some(Raw(Bytes(), k)) else None
        invariant e == if k > 0 then Raw(Bytes(), k - 1) else stack
        invariant Slot(Entries(Bytes()), 0, limit) == Slot(Entries(Bytes()), k, limit)
        decreases inode.length / ENTRY_SIZE - k
      {
        e := read.value;
        if !DecodeEntry(e).inUse {
          break;
        }
        k := k + 1;
        read := ReadEntry(k, k < limit);
      }
    }

    /** dir_add(). */
    method AddName(name: Name, sector: nat, lim1: nat, lim2: nat, memory: bool, stack: seq<Byte>) returns (ok: bool)
      requires Valid() && sector < WORD_LIMIT && |stack| == ENTRY_SIZE
      modifies dev
      ensures Valid()
      ensures dev.disk == AddToDisk(old(dev.disk), inode, name, sector, lim1, lim2, memory, stack)
      ensures ok == Add(old(Entries(Bytes())), name, sector, lim1, lim2, memory).1
    {
      hide Contents, CString, Decode32, EncodeEntry, WriteBytes, Moved;
      if |name| == 0 || |name| > NAME_MAX {
        return false;
      }
      var found, _ := Lookup(name, lim1);
      if found.Some? {
        return false;
      }
      var k, e := FindSlot(lim2, stack);
      EntryMoved(inode.length, k, memory);
      var n := dev.WriteAt(inode, 0, EncodeEntry(name, sector, e), k * ENTRY_SIZE, memory);
      ok := n == ENTRY_SIZE;
    }

    /** The part of dir_remove() that erases the entry that lookup() found. */
    method EraseEntry(k: nat, raw: seq<Byte>, memory: bool) returns (ok: bool)
      requires Valid() && k < |Bytes()| / ENTRY_SIZE && raw == Raw(Bytes(), k)
      modifies dev
      ensures Valid()
      ensures dev.disk == EraseOnDisk(old(dev.disk), inode, k, memory)
      ensures ok == memory
    {
      EntryMoved(inode.length, k, memory);
      var n := dev.WriteAt(inode, 0, ClearInUse(raw), k * ENTRY_SIZE, memory);
      ok := n == ENTRY_SIZE;
    }

    /** dir_readdir(); `pos` counts entries, and `limit` reads get a bounce buffer. */
    method ReadDir(limit: nat) returns (name: Option<seq<Byte>>)
      requires Valid() && pos <= |Bytes()| / ENTRY_SIZE
      modifies this`pos
      ensures pos == NextInUse(old(Entries(Bytes())), old(pos), limit).1
      ensures var k := NextInUse(old(Entries(Bytes())), old(pos), limit).0;
              name == if k.Some? then Some(Entries(Bytes())[k.value].name) else None
    {
      hide Contents, CString, Decode32;
      var done := 0;
      var e := ReadEntry(pos, done < limit);
      while e.Some?
        invariant pos <= inode.length / ENTRY_SIZE && done <= limit
        invariant e == if done < limit && pos < |Bytes()| / ENTRY_SIZE then Some(Raw(Bytes(), pos)) else None
        invariant NextInUse(Entries(Bytes()), pos, limit - done) == NextInUse(Entries(Bytes()), old(pos), limit)
        decreases inode.length / ENTRY_SIZE - pos
      {
        pos, done := pos + 1, done + 1;
        var entry := DecodeEntry(e.value);
        if entry.inUse {
          return Some(entry.name);
        }
        e := ReadEntry(pos, done < limit);
      }
      return None;
    }
  }
}
