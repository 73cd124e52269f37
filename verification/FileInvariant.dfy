/** The invariant of the file system and how the primitive operations keep it. */
module FileInvariant {

  import opened Lists
  import opened Blocks
  import opened InodeData
  import opened FileSystem

  // ----- Who owns which sector -----

  /** Sector `b` belongs to the inode in sector `x`. */
  predicate Occupies(disk: Disk, x: nat, b: nat) {
    b == x || InExtent(InodeAt(disk, x), b)
  }

  ghost predicate SpaceOk(disk: Disk, marks: seq<bool>, live: set<nat>) {
    && Formed(disk) && |marks| == |disk|
    && (forall x :: x in live ==> x < |disk| && Fits(disk, InodeAt(disk, x)) && !InExtent(InodeAt(disk, x), x))
    && (forall x, b: nat :: x in live && Occupies(disk, x, b) ==> b < |marks| && marks[b])
    && (forall x, y, b: nat :: x in live && y in live && x != y && Occupies(disk, x, b) ==> !Occupies(disk, y, b))
  }

  function Named(es: seq<D.Entry>): set<nat> {
    set k | 0 <= k < |es| && es[k].inUse :: es[k].sector
  }

  function OpenSectors(inodes: map<nat, Inode>): set<nat> {
    set p | p in inodes :: inodes[p].sector
  }

  /** The inodes that are reserved, named or still open. */
  ghost function Live(s: FS): set<nat> {
    {FREE_MAP_SECTOR, ROOT_DIR_SECTOR} + Named(RootEntries(s)) + OpenSectors(s.inodes)
  }

  // ----- The table of open inodes -----

  ghost predicate TableOk(list: seq<nat>, inodes: map<nat, Inode>) {
    && NoDup(list)
    && (forall p :: p in list <==> p in inodes)
    && (forall p, q :: p in inodes && q in inodes && p != q ==> inodes[p].sector != inodes[q].sector)
  }

  function Handles(files: map<nat, File>, p: nat): set<nat> {
    set f | f in files && files[f].inode == p
  }

  function Deniers(files: map<nat, File>, p: nat): set<nat> {
    set f | f in files && files[f].inode == p && files[f].deny
  }

  /** The counters count the handles; `extra` are the references that a running operation
      holds. */
  ghost predicate CountsOk(inodes: map<nat, Inode>, files: map<nat, File>, extra: multiset<nat>) {
    && (forall p :: p in inodes ==>
          inodes[p].openCnt == |Handles(files, p)| + extra[p] && inodes[p].openCnt > 0
            && inodes[p].denyCnt == |Deniers(files, p)|)
    && (forall f :: f in files ==> files[f].inode in inodes)
    && (forall p :: p in extra ==> p in inodes)
  }

  ghost predicate CachedOk(disk: Disk, inodes: map<nat, Inode>) {
    forall p :: p in inodes ==> inodes[p].data == InodeAt(disk, inodes[p].sector)
  }

  ghost predicate NamesOk(es: seq<D.Entry>, inodes: map<nat, Inode>) {
    && (forall i, j :: 0 <= i < j < |es| && es[i].inUse && es[j].inUse ==> es[i].sector != es[j].sector)
    && (forall i :: 0 <= i < |es| && es[i].inUse ==> es[i].sector > ROOT_DIR_SECTOR)
    && (forall p :: p in inodes && inodes[p].removed ==>
        inodes[p].sector !in Named(es) && inodes[p].sector > ROOT_DIR_SECTOR)
  }

  ghost predicate RolesOk(s: FS) {
    && MapFileOpen(s) && MapInode(s).sector == FREE_MAP_SECTOR && !s.files[FREE_MAP_FILE].deny
    && (forall f :: f in s.files && f != FREE_MAP_FILE && s.files[f].inode in s.inodes ==>
        s.inodes[s.files[f].inode].sector > ROOT_DIR_SECTOR)
    && InodeAt(s.disk, FREE_MAP_SECTOR).length == MapSize(|s.disk|)
    && InodeAt(s.disk, ROOT_DIR_SECTOR).length == ROOT_ENTRIES * D.ENTRY_SIZE
  }

  ghost predicate Inv(s: FS, extra: multiset<nat>) {
    && SpaceOk(s.disk, s.freeMap, Live(s))
    && TableOk(s.list, s.inodes)
    && CountsOk(s.inodes, s.files, extra)
    && CachedOk(s.disk, s.inodes)
    && NamesOk(RootEntries(s), s.inodes)
    && RolesOk(s)
  }

  /** The sectors of file `y`, inode and data, are as they were. */
  ghost predicate KeepsFile(disk: Disk, disk': Disk, y: nat) {
    |disk'| == |disk| && forall b :: 0 <= b < |disk| && Occupies(disk, y, b) ==> disk'[b] == disk[b]
  }

  // ----- Space -----

  lemma SpaceFrame(disk: Disk, disk': Disk, marks: seq<bool>, live: set<nat>)
    requires SpaceOk(disk, marks, live) && Formed(disk') && |disk'| == |disk|
    requires forall x :: x in live ==> disk'[x] == disk[x]
    ensures SpaceOk(disk', marks, live)
  {
    forall x | x in live ensures InodeAt(disk', x) == InodeAt(disk, x) {
    }
    forall x, b: nat | x in live ensures Occupies(disk', x, b) == Occupies(disk, x, b) {
    }
  }

  lemma SpaceSizes(disk: Disk, marks: seq<bool>, live: set<nat>)
    requires SpaceOk(disk, marks, live)
    ensures Formed(disk) && |marks| == |disk| && forall x :: x in live ==> x < |disk| && Fits(disk, InodeAt(disk, x))
  {
  }

  /** No sector of a live inode is in the extent of another, nor is any live inode. */
  lemma SpaceApart(disk: Disk, marks: seq<bool>, live: set<nat>, x: nat, y: nat, b: nat)
    requires SpaceOk(disk, marks, live) && x in live && y in live && InExtent(InodeAt(disk, y), b)
    ensures b != x
    ensures x != y ==> !Occupies(disk, x, b)
  {
    assert Occupies(disk, y, b);
    assert b == x ==> Occupies(disk, x, b);
  }

  lemma SpaceDrop(disk: Disk, marks: seq<bool>, live: set<nat>, map': seq<bool>, live': set<nat>)
    requires SpaceOk(disk, marks, live) && live' <= live && |map'| == |marks|
    requires forall x, b: nat :: x in live' && b < |marks| && marks[b] && Occupies(disk, x, b) ==> map'[b]
    ensures SpaceOk(disk, map', live')
  {
  }

  lemma SpaceAdd(disk: Disk, marks: seq<bool>, live: set<nat>, x: nat)
    requires SpaceOk(disk, marks, live) && x < |disk| && Fits(disk, InodeAt(disk, x)) && !InExtent(InodeAt(disk, x), x)
    requires forall b: nat :: Occupies(disk, x, b) ==>
               b < |marks| && marks[b] && forall y :: y in live ==> !Occupies(disk, y, b)
    ensures SpaceOk(disk, marks, live + {x})
  {
  }

  /** A change of the free map alone. */
  lemma MapChange(s: FS, map': seq<bool>, extra: multiset<nat>)
    requires Inv(s, extra) && |map'| == |s.freeMap|
    requires forall x, b: nat :: x in Live(s) && b < |map'| && s.freeMap[b] && Occupies(s.disk, x, b) ==> map'[b]
    ensures Inv(s.(freeMap := map'), extra)
    ensures Live(s.(freeMap := map')) == Live(s)
  {
    hide CountsOk, CachedOk, NamesOk, TableOk, SpaceOk, EntriesOf, Occupies;
    assert RootEntries(s.(freeMap := map')) == RootEntries(s);
    SpaceSizes(s.disk, s.freeMap, Live(s));
    SpaceDrop(s.disk, s.freeMap, Live(s), map', Live(s));
  }

  /** A change of the device that spares all inodes in use and the directory's entries. */
  lemma DiskChange(s: FS, disk': Disk, extra: multiset<nat>)
    requires Inv(s, extra) && Formed(disk') && |disk'| == |s.disk|
    requires forall x :: x in Live(s) ==> x < |s.disk| && disk'[x] == s.disk[x]
    requires RootEntries(s.(disk := disk')) == RootEntries(s)
    ensures Inv(s.(disk := disk'), extra)
    ensures Live(s.(disk := disk')) == Live(s)
  {
    hide CountsOk, NamesOk, TableOk, SpaceOk, EntriesOf, Occupies, RootEntries, DecodeInode;
    SpaceFrame(s.disk, disk', s.freeMap, Live(s));
    forall p | p in s.inodes ensures InodeAt(disk', s.inodes[p].sector) == InodeAt(s.disk, s.inodes[p].sector) {
      assert s.inodes[p].sector in Live(s);
    }
    assert FREE_MAP_SECTOR in Live(s) && ROOT_DIR_SECTOR in Live(s);
  }

  // ----- Writes inside a file -----

  ghost predicate OnlyExtent(disk: Disk, disk': Disk, d: InodeDisk) {
    Formed(disk') && |disk'| == |disk| && forall b :: 0 <= b < |disk| && !InExtent(d, b) ==> disk'[b] == disk[b]
  }

  /** A write into the data of live file `y` spares every other file and all inodes. */
  lemma ExtentWriteFrame(disk: Disk, marks: seq<bool>, live: set<nat>, y: nat, disk': Disk)
    requires SpaceOk(disk, marks, live) && y in live && OnlyExtent(disk, disk', InodeAt(disk, y))
    ensures forall x :: x in live ==> x < |disk| && disk'[x] == disk[x]
    ensures forall x :: x in live && x != y ==> KeepsFile(disk, disk', x)
  {
    hide Occupies, SpaceOk, InExtent, Fits, Formed, InodeAt;
    SpaceSizes(disk, marks, live);
    forall x | x in live ensures disk'[x] == disk[x] {
      if InExtent(InodeAt(disk, y), x) {
        SpaceApart(disk, marks, live, x, y, x);
      }
    }
    forall x, b: nat | x in live && x != y && b < |disk| && Occupies(disk, x, b) ensures disk'[b] == disk[b] {
      if InExtent(InodeAt(disk, y), b) {
        SpaceApart(disk, marks, live, x, y, b);
      }
    }
  }

  /** A file whose sectors are kept has the same inode and the same bytes. */
  lemma KeptFile(disk: Disk, disk': Disk, y: nat)
    requires Formed(disk) && Formed(disk') && y < |disk| && KeepsFile(disk, disk', y)
    ensures InodeAt(disk', y) == InodeAt(disk, y)
    ensures EntriesOf(disk', InodeAt(disk, y)) == EntriesOf(disk, InodeAt(disk, y))
    ensures Fits(disk, InodeAt(disk, y)) ==> Contents(disk', InodeAt(disk, y)) == Contents(disk, InodeAt(disk, y))
  {
    assert Occupies(disk, y, y);
    var d := InodeAt(disk, y);
    if Fits(disk, d) {
      forall b | 0 <= b < |disk| && InExtent(d, b) ensures disk'[b] == disk[b] {
        assert Occupies(disk, y, b);
      }
      ContentsFrame(disk, disk', d);
    }
  }

  lemma ExtentWrite(s: FS, y: nat, disk': Disk, extra: multiset<nat>)
    requires Inv(s, extra) && y in Live(s) && y != ROOT_DIR_SECTOR && OnlyExtent(s.disk, disk', InodeAt(s.disk, y))
    ensures Inv(s.(disk := disk'), extra)
    ensures Live(s.(disk := disk')) == Live(s) && RootEntries(s.(disk := disk')) == RootEntries(s)
    ensures forall x :: x in Live(s) ==> x < |s.disk| && disk'[x] == s.disk[x]
    ensures forall x :: x in Live(s) && x != y ==> KeepsFile(s.disk, disk', x)
  {
    hide Occupies, SpaceOk, CountsOk, CachedOk, NamesOk, TableOk, RolesOk, EntriesOf, InodeAt, InExtent, Fits;
    SpaceSizes(s.disk, s.freeMap, Live(s));
    ExtentWriteFrame(s.disk, s.freeMap, Live(s), y, disk');
    assert ROOT_DIR_SECTOR in Live(s);
    KeptFile(s.disk, disk', ROOT_DIR_SECTOR);
    DiskChange(s, disk', extra);
  }

  // ----- The free map's file -----

  lemma NoDeniers(s: FS, extra: multiset<nat>)
    requires Inv(s, extra)
    ensures Writable(s) && MapInode(s).data == InodeAt(s.disk, FREE_MAP_SECTOR)
  {
    hide NamesOk, TableOk, InodeAt, Live, RootEntries;
    SpaceSizes(s.disk, s.freeMap, Live(s));
    var p := s.files[FREE_MAP_FILE].inode;
    assert Deniers(s.files, p) == {};
  }

  /** What holds of a state after it wrote its free map out. */
  ghost predicate Persisted(s: FS) {
    var d := InodeAt(s.disk, FREE_MAP_SECTOR);
    Formed(s.disk) && Fits(s.disk, d) && Contents(s.disk, d) == Packed(s.freeMap)
  }

  lemma WriteMapKeeps(s: FS, extra: multiset<nat>, memory: bool)
    requires Inv(s, extra)
    ensures var s' := WriteMap(s, memory);
            && Inv(s', extra) && Live(s') == Live(s) && RootEntries(s') == RootEntries(s)
            && s' == s.(disk := s'.disk) && |s'.disk| == |s.disk|
            && (forall x :: x in Live(s) ==> x < |s.disk| && s'.disk[x] == s.disk[x])
            && (forall x :: x in Live(s) && x != FREE_MAP_SECTOR ==> KeepsFile(s.disk, s'.disk, x))
            && (MapWritten(s, memory) ==> Persisted(s'))
            && (MapWritten(s, memory) <==> MapGoesOut(|s.disk|, memory))
  {
    hide Moved, MapGoesOut, Occupies, SpaceOk, Live, CountsOk, CachedOk, NamesOk, TableOk, EntriesOf, InodeAt;
    hide InExtent, Packed, WriteBytes, Contents, MapSize;
    WrittenIff(s, extra, memory);
    NoDeniers(s, extra);
    SpaceSizes(s.disk, s.freeMap, Live(s));
    ReservedLive(s);
    var d := InodeAt(s.disk, FREE_MAP_SECTOR);
    var data := Packed(s.freeMap)[..MapMoved(s, memory)];
    var disk' := WriteBytes(s.disk, d.start, 0, data);
    forall b | 0 <= b < |s.disk| && !InExtent(d, b) ensures disk'[b] == s.disk[b] {
      WriteBytesFrame(s.disk, d, 0, data, b);
    }
    ExtentWrite(s, FREE_MAP_SECTOR, disk', extra);
    if MapWritten(s, memory) {
      WriteBytesContents(s.disk, d, 0, data);
      assert data == Packed(s.freeMap);
      assert Splice(Contents(s.disk, d), 0, data) == data;
      SameInode(s.disk, disk', FREE_MAP_SECTOR);
    }
  }

  lemma GoesOut(size: nat, memory: bool)
    ensures Moved(size, 0, size, memory) == size <==> memory || size % SECTOR_SIZE == 0
  {
  }

  lemma WrittenIff(s: FS, extra: multiset<nat>, memory: bool)
    requires Inv(s, extra)
    ensures MapWritten(s, memory) <==> MapGoesOut(|s.disk|, memory)
  {
    hide Moved, SpaceOk, TableOk, CountsOk, CachedOk, NamesOk, Live, InodeAt, MapSize;
    NoDeniers(s, extra);
    SpaceSizes(s.disk, s.freeMap, Live(s));
    GoesOut(MapSize(|s.disk|), memory);
  }

  lemma ReservedLive(s: FS)
    ensures FREE_MAP_SECTOR in Live(s) && ROOT_DIR_SECTOR in Live(s)
  {
  }

  lemma SameInode(disk: Disk, disk': Disk, x: nat)
    requires x < |disk| == |disk'| && disk'[x] == disk[x]
    ensures InodeAt(disk', x) == InodeAt(disk, x)
  {
  }

  // ----- Allocation and release -----

  /** The step leaves the tables, the names and every live file but the free map as they
      were. */
  ghost predicate MapOnly(s: FS, s': FS) {
    && s'.list == s.list && s'.inodes == s.inodes && s'.files == s.files
    && |s'.disk| == |s.disk| && Live(s') == Live(s) && RootEntries(s') == RootEntries(s)
    && (forall x :: x in Live(s) ==> x < |s.disk| && s'.disk[x] == s.disk[x])
    && (forall x :: x in Live(s) && x != FREE_MAP_SECTOR ==> KeepsFile(s.disk, s'.disk, x))
  }

  /** No live inode owns a sector of the group. */
  ghost predicate Unowned(s: FS, start: nat, cnt: nat) {
    forall x, b: nat :: x in Live(s) && start <= b < start + cnt ==> !Occupies(s.disk, x, b)
  }

  lemma FreeIsUnowned(s: FS, start: nat, cnt: nat)
    requires SpaceOk(s.disk, s.freeMap, Live(s)) && B.AllAre(s.freeMap, start, cnt, false)
    ensures Unowned(s, start, cnt)
  {
  }

  /** Ownership is decided by the live inodes alone. */
  lemma UnownedFrame(s: FS, s': FS, start: nat, cnt: nat)
    requires Unowned(s, start, cnt) && Live(s') == Live(s) && |s'.disk| == |s.disk|
    requires forall x :: x in Live(s) ==> x < |s.disk| && s'.disk[x] == s.disk[x]
    ensures Unowned(s', start, cnt)
  {
    hide Live, InExtent;
    forall x, b: nat | x in Live(s') && start <= b < start + cnt ensures !Occupies(s'.disk, x, b) {
      SameInode(s.disk, s'.disk, x);
      assert !Occupies(s.disk, x, b);
    }
  }

  /** free_map_release() of sectors that no live inode owns. */
  lemma ReleaseKeeps(s: FS, extra: multiset<nat>, start: nat, cnt: nat, memory: bool)
    requires Inv(s, extra) && start + cnt <= |s.freeMap| && Unowned(s, start, cnt)
    ensures var s' := Release(s, start, cnt, memory);
            && Inv(s', extra) && MapOnly(s, s')
            && s'.freeMap == B.SetRange(s.freeMap, start, cnt, false)
            && (MapGoesOut(|s.disk|, memory) ==> Persisted(s'))
  {
    hide Occupies, SpaceOk, Live, CountsOk, CachedOk, NamesOk, TableOk, RolesOk, RootEntries, WriteMap, MapWritten;
    hide Persisted, KeepsFile;
    var map' := B.SetRange(s.freeMap, start, cnt, false);
    forall x, b: nat | x in Live(s) && b < |map'| && s.freeMap[b] && Occupies(s.disk, x, b) ensures map'[b] {
      assert !(start <= b < start + cnt);
    }
    MapChange(s, map', extra);
    assert RootEntries(s.(freeMap := map')) == RootEntries(s) by { SameEntries(s, map'); }
    WriteMapKeeps(s.(freeMap := map'), extra, memory);
  }

  lemma SameEntries(s: FS, map': seq<bool>)
    ensures RootEntries(s.(freeMap := map')) == RootEntries(s)
  {
  }

  /** free_map_allocate() hands out sectors that no live inode owns, and marks exactly them. */
  lemma AllocateKeeps(s: FS, extra: multiset<nat>, cnt: nat, memory: bool)
    requires Inv(s, extra)
    ensures var (s', r) := Allocate(s, cnt, memory);
            && Inv(s', extra) && MapOnly(s, s')
            && (r.None? ==> s'.freeMap == s.freeMap)
            && (r.Some? ==> r.value + cnt <= |s.freeMap| && Unowned(s', r.value, cnt)
                            && B.AllAre(s.freeMap, r.value, cnt, false)
                               && s'.freeMap == B.SetRange(s.freeMap, r.value, cnt, true))
            && (r.Some? <==> MapGoesOut(|s.disk|, memory) && B.FirstGroup(s.freeMap, 0, cnt, false).Some?)
            && (r.Some? ==> r == B.FirstGroup(s.freeMap, 0, cnt, false) && Persisted(s'))
            && (MapGoesOut(|s.disk|, memory) && Persisted(s) ==> Persisted(s'))
  {
    hide Occupies, SpaceOk, Live, CountsOk, CachedOk, NamesOk, TableOk, RootEntries, WriteMap, MapWritten;
    hide Persisted, KeepsFile, Unowned, B.FirstGroup, MapInode;
    var g := B.FirstGroup(s.freeMap, 0, cnt, false);
    if g.None? {
      MapOnlyRefl(s, extra);
    } else {
      var i := g.value;
      FreeIsUnowned(s, i, cnt);
      var s1 := s.(freeMap := B.SetRange(s.freeMap, i, cnt, true));
      MapChange(s, s1.freeMap, extra);
      SameEntries(s, s1.freeMap);
      WriteMapKeeps(s1, extra, memory);
      var s2 := WriteMap(s1, memory);
      UnownedFrame(s, s2, i, cnt);
      if !MapWritten(s1, memory) {
        B.FlipFlop(s.freeMap, i, cnt, false);
        UnownedMarks(s2, i, cnt, s.freeMap);
        MapChange(s2, s.freeMap, extra);
        SameEntries(s2, s.freeMap);
      }
    }
  }

  lemma MapOnlyRefl(s: FS, extra: multiset<nat>)
    requires Inv(s, extra)
    ensures MapOnly(s, s)
  {
    hide CountsOk, CachedOk, NamesOk, TableOk, RolesOk, Live, RootEntries, InodeAt;
    SpaceSizes(s.disk, s.freeMap, Live(s));
  }

  /** Clearing an unowned group keeps every mark that a live inode needs. */
  lemma UnownedMarks(s: FS, i: nat, cnt: nat, map': seq<bool>)
    requires Unowned(s, i, cnt) && |map'| == |s.freeMap| && i + cnt <= |map'|
    requires map' == B.SetRange(s.freeMap, i, cnt, false)
    ensures forall x, b: nat :: x in Live(s) && b < |map'| && s.freeMap[b] && Occupies(s.disk, x, b) ==> map'[b]
  {
    hide Occupies, Live;
  }

  /** A write to sectors that no live inode owns. */
  lemma UnownedWrite(s: FS, disk': Disk, extra: multiset<nat>)
    requires Inv(s, extra) && Formed(disk') && |disk'| == |s.disk|
    requires forall x, b: nat :: x in Live(s) && b < |disk'| && Occupies(s.disk, x, b) ==> disk'[b] == s.disk[b]
    ensures Inv(s.(disk := disk'), extra) && MapOnly(s, s.(disk := disk'))
    ensures Persisted(s) ==> Persisted(s.(disk := disk'))
  {
    hide SpaceOk, CountsOk, CachedOk, NamesOk, TableOk, RolesOk, EntriesOf, InodeAt, InExtent, Live, Contents, Packed;
    SpaceSizes(s.disk, s.freeMap, Live(s));
    ReservedLive(s);
    forall x | x in Live(s) ensures disk'[x] == s.disk[x] {
      assert Occupies(s.disk, x, x);
    }
    KeptFile(s.disk, disk', ROOT_DIR_SECTOR);
    DiskChange(s, disk', extra);
    KeptFile(s.disk, disk', FREE_MAP_SECTOR);
    assert Live(s.(disk := disk')) == Live(s);
  }

  /** A write to the directory's file, where `live` may hold one more inode than are live. */
  lemma RootWrite(s: FS, disk': Disk, extra: multiset<nat>, live: set<nat>)
    requires Inv(s, extra) && SpaceOk(s.disk, s.freeMap, live) && Live(s) <= live
    requires OnlyExtent(s.disk, disk', InodeAt(s.disk, ROOT_DIR_SECTOR))
    requires Live(s.(disk := disk')) <= live && NamesOk(RootEntries(s.(disk := disk')), s.inodes)
    ensures Inv(s.(disk := disk'), extra) && SpaceOk(disk', s.freeMap, live)
    ensures forall x :: x in live ==> x < |s.disk| && disk'[x] == s.disk[x]
    ensures forall x :: x in live && x != ROOT_DIR_SECTOR ==> KeepsFile(s.disk, disk', x)
    ensures Persisted(s) ==> Persisted(s.(disk := disk'))
  {
    hide SpaceOk, CountsOk, NamesOk, TableOk, RootEntries, InodeAt, InExtent, Fits, Live, Contents, Packed, MapSize;
    hide KeepsFile;
    ReservedLive(s);
    SpaceSizes(s.disk, s.freeMap, live);
    ExtentWriteFrame(s.disk, s.freeMap, live, ROOT_DIR_SECTOR, disk');
    SpaceFrame(s.disk, disk', s.freeMap, live);
    SpaceDrop(disk', s.freeMap, live, s.freeMap, Live(s.(disk := disk')));
    KeptFile(s.disk, disk', FREE_MAP_SECTOR);
    SameInode(s.disk, disk', ROOT_DIR_SECTOR);
    forall p | p in s.inodes ensures InodeAt(disk', s.inodes[p].sector) == InodeAt(s.disk, s.inodes[p].sector) {
      InodeIsLive(s, p);
      SameInode(s.disk, disk', s.inodes[p].sector);
    }
  }

  lemma InodeIsLive(s: FS, p: nat)
    requires p in s.inodes
    ensures s.inodes[p].sector in Live(s)
  {
  }
}
