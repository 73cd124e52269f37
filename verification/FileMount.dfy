/** Formatting and mounting: filesys_init(), do_format() and free_map_open(). */
module FileMount {

  import opened Lists
  import opened Blocks
  import opened InodeData
  import opened FileSystem
  import opened FileInvariant
  import opened FileOps
  import opened FileRuns

  // ----- The free map on disk -----

  function Power(j: nat): nat
    requires j < 8
    ensures Power(j) > 0
  {
    [1, 2, 4, 8, 16, 32, 64, 128][j]
  }

  function BitOfByte(b: Byte, j: nat): bool
    requires j < 8
  {
    b / Power(j) % 2 == 1
  }

  /** bitmap_read(). */
  function Unpacked(bytes: seq<Byte>, bits: nat): (r: seq<bool>)
    requires |bytes| == MapSize(bits)
  {
    seq(bits, k requires 0 <= k < bits => BitOfByte(bytes[k / 8], k % 8))
  }

  lemma Shifted(n: nat, h: nat, v: nat, p: nat, q: nat)
    requires p > 0 && q == 2 * p && n / p == v + 2 * h && v <= 1
    ensures n / p % 2 == v && n / q == h
  {
    assert n == p * (v + 2 * h) + n % p;
    assert n == q * h + (p * v + n % p) by {
      assert p * (v + 2 * h) == p * v + q * h;
    }
    assert 0 <= p * v + n % p < q by {
      assert v == 0 || v == 1;
    }
    assert h * q <= n < (h + 1) * q;
    A.DivUnique(n, q, h);
  }

  lemma UnpackByte(b: seq<bool>, i: nat, j: nat)
    requires j < 8 && 8 * i + j < |b|
    ensures BitOfByte(PackByte(b, i), j) == b[8 * i + j]
  {
    hide BitValue;
    var v0 := Bit(b, 8 * i + 0);
    var v1 := Bit(b, 8 * i + 1);
    var v2 := Bit(b, 8 * i + 2);
    var v3 := Bit(b, 8 * i + 3);
    var v4 := Bit(b, 8 * i + 4);
    var v5 := Bit(b, 8 * i + 5);
    var v6 := Bit(b, 8 * i + 6);
    var v7 := Bit(b, 8 * i + 7);
    var h7: nat := v7;
    var h6: nat := v6 + 2 * h7;
    var h5: nat := v5 + 2 * h6;
    var h4: nat := v4 + 2 * h5;
    var h3: nat := v3 + 2 * h4;
    var h2: nat := v2 + 2 * h3;
    var h1: nat := v1 + 2 * h2;
    var n: nat := v0 + 2 * h1;
    assert n == PackByte(b, i);
    Shifted(n, h1, v0, 1, 2);
    Shifted(n, h2, v1, 2, 4);
    Shifted(n, h3, v2, 4, 8);
    Shifted(n, h4, v3, 8, 16);
    Shifted(n, h5, v4, 16, 32);
    Shifted(n, h6, v5, 32, 64);
    Shifted(n, h7, v6, 64, 128);
    Shifted(n, 0, v7, 128, 256);
    assert Power(j) == if j == 0 then 1 else if j == 1 then 2 else if j == 2 then 4 else if j == 3 then 8
      else if j == 4 then 16 else if j == 5 then 32 else if j == 6 then 64 else 128;
  }

  function Bit(b: seq<bool>, k: nat): (r: nat)
    ensures r == BitValue(b, k) && r <= 1 && (k < |b| ==> (r == 1 <==> b[k]))
  {
    BitValue(b, k)
  }

  /** Reading back a free map that was written out. */
  lemma UnpackPacked(b: seq<bool>)
    ensures Unpacked(Packed(b), |b|) == b
  {
    forall k | 0 <= k < |b| ensures Unpacked(Packed(b), |b|)[k] == b[k] {
      assert 8 * (k / 8) + k % 8 == k;
      UnpackByte(b, k / 8, k % 8);
    }
  }

  // ----- Mounting -----

  /** The bytes that bitmap_read() reads. */
  function FirstBytes(bytes: seq<Byte>, n: nat): (r: seq<Byte>)
    ensures |r| == n
    ensures |bytes| == n ==> r == bytes
  {
    seq(n, i requires 0 <= i => if i < |bytes| then bytes[i] else 0)
  }

  /** The kernel's state before the free map is opened. */
  function Unmounted(disk: Disk): FS {
    FS(disk, seq(|disk|, k => k <= ROOT_DIR_SECTOR), [], map[], map[])
  }

  /** What the allocations of filesys_init() return. */
  datatype BootEnv = BootEnv(
    bitmap: bool,           // free_map_init()
    mapInode: bool,         // inode_create() of the free map's file
    ptr1: Option<nat>,      // opening it
    file1: bool,
    mapWrite: bool,         // its first write
    rootInode: bool,        // inode_create() of the root directory
    rootWrite: bool,        // the write of the free map in it
    ptr2: Option<nat>,      // free_map_open()
    file2: bool,
    mapRead: bool)

  /** free_map_open(); `mem`, `file` and `memory` are its allocations, and None stands for a
      panic. */
  ghost function Mount(s: FS, mem: Option<nat>, file: bool, memory: bool): (r: Option<FS>) {
    var (s1, q) := OpenInode(s, FREE_MAP_SECTOR, mem);
    if q.None? || !file then None
    else
      var s2 := OpenFile(s1, q.value, Some(FREE_MAP_FILE), true, true).0;
      if Formed(s2.disk) && MapFileOpen(s2) && Fits(s2.disk, MapInode(s2).data)
          && MapMoved(s2, memory) == MapSize(|s2.freeMap|)
      then Some(s2.(freeMap :=
                    Unpacked(FirstBytes(Contents(s2.disk, MapInode(s2).data), MapSize(|s2.freeMap|)), |s2.freeMap|)))
      else None
  }

  /** do_format() on a device with arbitrary contents. */
  ghost function Format(disk: Disk, env: BootEnv): (r: Option<FS>) {
    var (s1, made) := CreateInode(Unmounted(disk), FREE_MAP_SECTOR, MapSize(|disk|), env.mapInode, true);
    if !made || env.ptr1.None? || !env.file1 then None
    else
      var s2 := OpenFile(OpenInode(s1, FREE_MAP_SECTOR, env.ptr1).0, env.ptr1.value, Some(FREE_MAP_FILE), true, true).0;
      if !MapWritten(s2, env.mapWrite) then None
      else
        var (s3, made') :=
            CreateInode(WriteMap(s2, env.mapWrite), ROOT_DIR_SECTOR, ROOT_ENTRIES * D.ENTRY_SIZE, env.rootInode,
                        env.rootWrite);
        if made' then Some(s3) else None
  }

  /** filesys_init() with formatting: the free map file is closed and opened again. */
  ghost function Boot(disk: Disk, env: BootEnv): (r: Option<FS>) {
    if !env.bitmap then None
    else
      var s := Format(disk, env);
      if s.None? then None else Mount(CloseFile(s.value, FREE_MAP_FILE, true, true), env.ptr2, env.file2, env.mapRead)
  }

  /** filesys_init(); None stands for a panic. */
  ghost function Start(disk: Disk, format: bool, env: BootEnv): (r: Option<FS>) {
    if format then Boot(disk, env)
    else if env.bitmap then Mount(Unmounted(disk), env.ptr2, env.file2, env.mapRead)
    else None
  }

  /** Nothing is open, and the free map in memory has the device's size. */
  ghost predicate Idle(s: FS, disk: Disk) {
    s.disk == disk && |s.freeMap| == |disk| && s.list == [] && s.inodes == map[] && s.files == map[]
  }

  /** Mounting a device whose free map is up to date: the same names, the same bytes in every
      named file and the same free map; handles are gone. It succeeds when there is memory. */
  lemma MountRestores(s: FS, t: FS, mem: Option<nat>, file: bool, memory: bool)
    requires Inv(s, multiset{}) && Persisted(s) && Idle(t, s.disk)
    ensures Mount(t, mem, file, memory).Some? <==> mem.Some? && file && MapGoesOut(|s.disk|, memory)
    ensures Mount(t, mem, file, memory).Some? ==>
              var s' := Mount(t, mem, file, memory).value;
              && Inv(s', multiset{}) && Persisted(s') && NamedOrRemoved(s')
              && s'.disk == s.disk && s'.freeMap == s.freeMap
              && Live(s') <= Live(s) && RootEntries(s') == RootEntries(s)
  {
    hide SpaceOk, CountsOk, NamesOk, RootEntries, Named, InodeAt, Contents, Packed, Unpacked, MapSize, Moved, Live;
    hide Persisted;
    GoesOut(MapSize(|s.disk|), memory);
    MapFileKnown(s);
    if Mount(t, mem, file, memory).Some? {
      MountedState(s, t, mem.value, memory);
      MountedInv(s, mem.value);
    }
  }

  /** Starting the kernel again, without formatting, on a device whose free map is up to date:
      it succeeds exactly when there is memory, and everything on the device comes back. */
  lemma StartRestores(s: FS, env: BootEnv)
    requires Inv(s, multiset{}) && Persisted(s)
    ensures Start(s.disk, false, env).Some? <==>
            env.bitmap && env.ptr2.Some? && env.file2 && MapGoesOut(|s.disk|, env.mapRead)
    ensures Start(s.disk, false, env).Some? ==>
              var s' := Start(s.disk, false, env).value;
              && Inv(s', multiset{}) && Persisted(s') && s'.disk == s.disk && s'.freeMap == s.freeMap
              && RootEntries(s') == RootEntries(s)
    ensures Start(s.disk, true, env) == Boot(s.disk, env)
  {
    hide Inv, Persisted, Mount, Boot, Live, RootEntries, NamedOrRemoved, MapGoesOut;
    if env.bitmap {
      MountRestores(s, Unmounted(s.disk), env.ptr2, env.file2, env.mapRead);
    }
  }

  lemma MapFileKnown(s: FS)
    requires Inv(s, multiset{})
    ensures var d := InodeAt(s.disk, FREE_MAP_SECTOR);
            Formed(s.disk) && Fits(s.disk, d) && d.length == MapSize(|s.disk|) && |s.freeMap| == |s.disk|
  {
    hide Live;
    ReservedLive(s);
    SpaceSizes(s.disk, s.freeMap, Live(s));
  }

  /** The state after mounting. */
  ghost function Remounted(s: FS, p: nat): FS {
    FS(s.disk, s.freeMap, [p], map[p := Inode(FREE_MAP_SECTOR, 1, false, 0, InodeAt(s.disk, FREE_MAP_SECTOR))],
       map[FREE_MAP_FILE := File(p, 0, false)])
  }

  lemma MountedState(s: FS, t: FS, p: nat, memory: bool)
    requires Inv(s, multiset{}) && Persisted(s) && Idle(t, s.disk)
    ensures Mount(t, Some(p), true, memory).Some? ==> Mount(t, Some(p), true, memory).value == Remounted(s, p)
  {
    hide SpaceOk, CountsOk, NamesOk, RootEntries, Named, InodeAt, Contents, Packed, Unpacked, MapSize, Moved, Live;
    MapFileKnown(s);
    UnpackPacked(s.freeMap);
  }

  lemma MountedInv(s: FS, p: nat)
    requires Inv(s, multiset{}) && Persisted(s)
    ensures var s' := Remounted(s, p);
            Inv(s', multiset{}) && Persisted(s') && NamedOrRemoved(s') && Live(s') <= Live(s)
              && RootEntries(s') == RootEntries(s)
  {
    hide SpaceOk, CountsOk, NamesOk, RootEntries, Named, InodeAt, MapSize, Persisted;
    var s' := Remounted(s, p);
    ReservedLive(s);
    SameDisk(s, s');
    MountedTables(s, s', p, s'.inodes[p]);
    SpaceDrop(s.disk, s.freeMap, Live(s), s.freeMap, Live(s'));
    SamePersisted(s, s');
  }

  lemma MountedTables(s: FS, s': FS, p: nat, i: Inode)
    requires NamesOk(RootEntries(s), s.inodes) && RootEntries(s') == RootEntries(s)
    requires i.sector == FREE_MAP_SECTOR && !i.removed && i.openCnt == 1 && i.denyCnt == 0
    requires s'.inodes == map[p := i] && s'.files == map[FREE_MAP_FILE := File(p, 0, false)]
    ensures NamesOk(RootEntries(s'), s'.inodes) && CountsOk(s'.inodes, s'.files, multiset{})
  {
    hide RootEntries, Named;
    assert Handles(s'.files, p) == {FREE_MAP_FILE} && Deniers(s'.files, p) == {};
  }

  // ----- Formatting -----

  /** The free map in which exactly the first k sectors are taken. */
  function FirstTaken(n: nat, k: nat): (r: seq<bool>)
    ensures |r| == n
  {
    seq(n, i => i < k)
  }

  lemma FirstFree(n: nat, k: nat, cnt: nat)
    requires cnt > 0 && k <= n
    ensures B.FirstGroup(FirstTaken(n, k), 0, cnt, false) == if k + cnt <= n then Some(k) else None
    ensures k + cnt <= n ==> B.SetRange(FirstTaken(n, k), k, cnt, true) == FirstTaken(n, k + cnt)
  {
    var b := FirstTaken(n, k);
    forall j: nat ensures B.AllAre(b, j, cnt, false) <==> k <= j && j + cnt <= n {
      if j < k && j + cnt <= n {
        assert b[j];
      }
    }
    var r := if k + cnt <= n then Some(k) else None;
    assert B.IsFirstGroup(b, 0, cnt, false, r);
    B.FirstGroupUnique(b, 0, cnt, false, B.FirstGroup(b, 0, cnt, false), r);
  }

  lemma NewInodeOnDisk(disk: Disk, x: nat, start: nat, length: nat)
    requires Formed(disk) && x < |disk| && start + SectorsFor(length) <= |disk| && length < LENGTH_LIMIT && x < start
    ensures var disk' := ZeroSectors(disk[x := EncodeInode(InodeDisk(start, length))], start, SectorsFor(length));
            && Formed(disk') && InodeAt(disk', x) == InodeDisk(start, length)
            && Contents(disk', InodeDisk(start, length)) == Zeros(length)
            && (forall b :: 0 <= b < |disk| && b != x && !(start <= b < start + SectorsFor(length)) ==>
                disk'[b] == disk[b])
  {
    hide EncodeInode, DecodeInode, SectorsFor;
    InodeRoundTrip(InodeDisk(start, length));
    var disk' := ZeroSectors(disk[x := EncodeInode(InodeDisk(start, length))], start, SectorsFor(length));
    ZeroedContents(disk', InodeDisk(start, length));
  }

  /** The state after do_format() made the free map's file. */
  lemma FormatMap(disk: Disk, p: nat)
    requires Formed(disk) && |disk| >= 2 && CreateInode(Unmounted(disk), FREE_MAP_SECTOR, MapSize(|disk|), true, true).1
    ensures var m := MapSize(|disk|);
            var s1 := CreateInode(Unmounted(disk), FREE_MAP_SECTOR, m, true, true).0;
            && s1 == Unmounted(disk).(disk := s1.disk, freeMap := FirstTaken(|disk|, 2 + SectorsFor(m)))
            && Formed(s1.disk) && |s1.disk| == |disk| && InodeAt(s1.disk, FREE_MAP_SECTOR) == InodeDisk(2, m)
            && 2 + SectorsFor(m) <= |disk| && m > 0 && m < LENGTH_LIMIT
  {
    hide ZeroSectors, EncodeInode, DecodeInode;
    var m := MapSize(|disk|);
    assert 0 < m < LENGTH_LIMIT && SectorsFor(m) > 0;
    assert Unmounted(disk).freeMap == FirstTaken(|disk|, 2);
    FirstFree(|disk|, 2, SectorsFor(m));
    NewInodeOnDisk(disk, FREE_MAP_SECTOR, 2, m);
  }

  /** Facts about the device right after do_format(). */
  ghost predicate Formatted(s: FS, p: nat) {
    var n := |s.disk|;
    var m := MapSize(n);
    var d := InodeDisk(2, m);
    && Formed(s.disk) && 3 + SectorsFor(m) <= n
    && InodeAt(s.disk, FREE_MAP_SECTOR) == d
    && InodeAt(s.disk, ROOT_DIR_SECTOR) == InodeDisk(2 + SectorsFor(m), ROOT_ENTRIES * D.ENTRY_SIZE)
    && Contents(s.disk, InodeAt(s.disk, ROOT_DIR_SECTOR)) == Zeros(ROOT_ENTRIES * D.ENTRY_SIZE)
    && s.freeMap == FirstTaken(n, 3 + SectorsFor(m))
    && s.list == [p] && s.inodes == map[p := Inode(FREE_MAP_SECTOR, 1, false, 0, d)]
       && s.files == map[FREE_MAP_FILE := File(p, 0, false)]
  }

  /** Writing the free map to its file, from sector 2 on, changes nothing else. */
  lemma MapWriteFrame(s: FS, m: nat, p: nat, memory: bool)
    requires Formed(s.disk) && m == MapSize(|s.disk|) && |s.freeMap| == |s.disk| && 2 + SectorsFor(m) <= |s.disk|
    requires s.inodes == map[p := Inode(FREE_MAP_SECTOR, 1, false, 0, InodeDisk(2, m))]
             && s.files == map[FREE_MAP_FILE := File(p, 0, false)]
    ensures Writable(s) && (MapWritten(s, memory) <==> MapGoesOut(|s.disk|, memory))
    ensures MapWritten(s, memory) ==>
            var s' := WriteMap(s, memory);
            && s' == s.(disk := s'.disk) && Formed(s'.disk) && |s'.disk| == |s.disk|
            && (forall b :: 0 <= b < |s.disk| && !InExtent(InodeDisk(2, m), b) ==> s'.disk[b] == s.disk[b])
            && Contents(s'.disk, InodeDisk(2, m)) == Packed(s.freeMap)
  {
    hide MapSize, SectorsFor, InExtent, Packed, WriteBytes, Contents, Splice, Moved;
    GoesOut(m, memory);
    var d := InodeDisk(2, m);
    var data := Packed(s.freeMap);
    assert data[..m] == data;
    forall b | 0 <= b < |s.disk| && !InExtent(d, b) ensures WriteBytes(s.disk, 2, 0, data)[b] == s.disk[b] {
      WriteBytesFrame(s.disk, d, 0, data, b);
    }
    WriteBytesContents(s.disk, d, 0, data);
    SpliceAll(Contents(s.disk, d), data);
  }

  lemma SpliceAll(bytes: seq<Byte>, data: seq<Byte>)
    requires |data| == |bytes|
    ensures Splice(bytes, 0, data) == data
  {
  }

  /** The state in which do_format() writes the free map for the first time. */
  ghost function MapOpened(disk: Disk, p: nat): FS {
    var s1 := CreateInode(Unmounted(disk), FREE_MAP_SECTOR, MapSize(|disk|), true, true).0;
    OpenFile(OpenInode(s1, FREE_MAP_SECTOR, Some(p)).0, p, Some(FREE_MAP_FILE), true, true).0
  }

  lemma MapOpenedFacts(disk: Disk, p: nat)
    requires Formed(disk) && |disk| >= 2 && CreateInode(Unmounted(disk), FREE_MAP_SECTOR, MapSize(|disk|), true, true).1
    ensures var s, m := MapOpened(disk, p), MapSize(|disk|);
            && Formed(s.disk) && |s.disk| == |disk| && 2 + SectorsFor(m) <= |disk| && m > 0
            && s.freeMap == FirstTaken(|disk|, 2 + SectorsFor(m)) && InodeAt(s.disk, FREE_MAP_SECTOR) == InodeDisk(2, m)
            && s.list == [p] && s.inodes == map[p := Inode(FREE_MAP_SECTOR, 1, false, 0, InodeDisk(2, m))]
            && s.files == map[FREE_MAP_FILE := File(p, 0, false)]
  {
    hide DecodeInode, MapSize, FirstTaken, CreateInode, SectorsFor;
    FormatMap(disk, p);
  }

  /** Formatting succeeds exactly on devices with room for the two inodes, the free map and
      one sector of directory, when there is memory. */
  lemma FormatIff(disk: Disk, env: BootEnv)
    requires Formed(disk) && |disk| >= 2
    ensures Format(disk, env).Some? <==>
              && 3 + SectorsFor(MapSize(|disk|)) <= |disk|
              && env.mapInode && env.ptr1.Some? && env.file1 && MapGoesOut(|disk|, env.mapWrite)
              && env.rootInode && MapGoesOut(|disk|, env.rootWrite)
    ensures Format(disk, env).Some? ==>
              && env.ptr1.Some? && Formatted(Format(disk, env).value, env.ptr1.value)
                 && Persisted(Format(disk, env).value)
              && |Format(disk, env).value.disk| == |disk|
  {
    hide DecodeInode, MapSize, SectorsFor, FirstTaken, WriteMap, CreateInode, MapGoesOut, MapOpened, MapWritten;
    hide Formatted, Persisted;
    FormatMapRoom(disk);
    NoMemoryNoInode(Unmounted(disk), FREE_MAP_SECTOR, MapSize(|disk|), true);
    var m := MapSize(|disk|);
    if CreateInode(Unmounted(disk), FREE_MAP_SECTOR, m, env.mapInode, true).1 && env.ptr1.Some? && env.file1 {
      MapOpenedFacts(disk, env.ptr1.value);
      FormatOpened(disk, env);
    }
  }

  lemma NoMemoryNoInode(s: FS, x: nat, length: nat, mapMemory: bool)
    ensures !CreateInode(s, x, length, false, mapMemory).1
  {
  }

  /** The rest of do_format() once the free map's file is open. */
  lemma FormatOpened(disk: Disk, env: BootEnv)
    requires Formed(disk) && |disk| >= 2 && env.mapInode && env.ptr1.Some? && env.file1
    requires CreateInode(Unmounted(disk), FREE_MAP_SECTOR, MapSize(|disk|), true, true).1
    ensures Format(disk, env).Some? <==>
              && 3 + SectorsFor(MapSize(|disk|)) <= |disk| && MapGoesOut(|disk|, env.mapWrite)
              && env.rootInode && MapGoesOut(|disk|, env.rootWrite)
    ensures Format(disk, env).Some? ==>
              Formatted(Format(disk, env).value, env.ptr1.value) && Persisted(Format(disk, env).value)
                && |Format(disk, env).value.disk| == |disk|
  {
    hide DecodeInode, MapSize, SectorsFor, FirstTaken, WriteMap, CreateInode, MapGoesOut, MapWritten, Formatted;
    hide Persisted, OpenInode, OpenFile;
    var s, m, p := MapOpened(disk, env.ptr1.value), MapSize(|disk|), env.ptr1.value;
    MapOpenedFacts(disk, p);
    MapWriteFrame(s, m, p, env.mapWrite);
    if MapWritten(s, env.mapWrite) {
      var s1 := WriteMap(s, env.mapWrite);
      SameInode(s.disk, s1.disk, FREE_MAP_SECTOR) by { OutsideMapExtent(m); }
      FormatRoot(s1, m, p, env.rootWrite);
      NoMemoryNoInode(s1, ROOT_DIR_SECTOR, ROOT_ENTRIES * D.ENTRY_SIZE, env.rootWrite);
    }
  }

  lemma OutsideMapExtent(m: nat)
    ensures !InExtent(InodeDisk(2, m), FREE_MAP_SECTOR) && !InExtent(InodeDisk(2, m), ROOT_DIR_SECTOR)
  {
  }

  /** The second half of do_format(): the root directory. */
  lemma FormatRoot(s: FS, m: nat, p: nat, memory: bool)
    requires Formed(s.disk) && m == MapSize(|s.disk|) && 2 + SectorsFor(m) <= |s.disk| && m > 0
    requires s.freeMap == FirstTaken(|s.disk|, 2 + SectorsFor(m)) && InodeAt(s.disk, FREE_MAP_SECTOR) == InodeDisk(2, m)
    requires s.list == [p] && s.inodes == map[p := Inode(FREE_MAP_SECTOR, 1, false, 0, InodeDisk(2, m))]
             && s.files == map[FREE_MAP_FILE := File(p, 0, false)]
    ensures var (s', ok) := CreateInode(s, ROOT_DIR_SECTOR, ROOT_ENTRIES * D.ENTRY_SIZE, true, memory);
            && (ok <==> 3 + SectorsFor(m) <= |s.disk| && MapGoesOut(|s.disk|, memory))
            && (ok ==> Formatted(s', p) && Persisted(s') && |s'.disk| == |s.disk|)
  {
    hide ZeroSectors, EncodeInode, DecodeInode, MapSize, Packed, Contents, FirstTaken, WriteMap, MapWritten;
    hide Writable, MapGoesOut;
    var length := ROOT_ENTRIES * D.ENTRY_SIZE;
    var k := 2 + SectorsFor(m);
    assert SectorsFor(length) == 1;
    FirstFree(|s.disk|, k, 1);
    if k + 1 <= |s.disk| {
      var s1 := s.(freeMap := FirstTaken(|s.disk|, k + 1));
      MapWriteFrame(s1, m, p, memory);
      if MapWritten(s1, memory) {
        var s2 := WriteMap(s1, memory);
        NewInodeOnDisk(s2.disk, ROOT_DIR_SECTOR, k, length);
        var s3 := CreateInode(s, ROOT_DIR_SECTOR, length, true, memory).0;
        SameInode(s.disk, s2.disk, FREE_MAP_SECTOR);
        SameInode(s2.disk, s3.disk, FREE_MAP_SECTOR);
        ContentsFrame(s2.disk, s3.disk, InodeDisk(2, m));
      }
    }
  }

  lemma MapLimit(n: nat)
    requires 2 <= n < WORD_LIMIT
    ensures 0 < MapSize(n) < LENGTH_LIMIT
  {
  }

  /** A complete read of the free map's file yields its first bytes. */
  lemma SliceIsFirst(disk: Disk, d: InodeDisk, size: nat, memory: bool)
    requires Formed(disk) && Fits(disk, d) && Moved(d.length, 0, size, memory) == size
    ensures Slice(disk, d, 0, size) == FirstBytes(Contents(disk, d), size)
  {
    hide Contents;
  }

  lemma FormatMapRoom(disk: Disk)
    requires Formed(disk) && |disk| >= 2
    ensures CreateInode(Unmounted(disk), FREE_MAP_SECTOR, MapSize(|disk|), true, true).1 <==>
            2 + SectorsFor(MapSize(|disk|)) <= |disk|
  {
    var m := MapSize(|disk|);
    assert 0 < m < LENGTH_LIMIT && SectorsFor(m) > 0;
    assert Unmounted(disk).freeMap == FirstTaken(|disk|, 2);
    FirstFree(|disk|, 2, SectorsFor(m));
  }

  lemma FormatSatisfiesInv(s: FS, p: nat)
    requires Formatted(s, p)
    ensures Inv(s, multiset{}) && NamedOrRemoved(s)
  {
    hide MapSize, SectorsFor, Contents, InodeAt, RootEntries, SpaceOk, FirstTaken, Named;
    RootSectors();
    NoNames(s);
    assert s.inodes[p].sector in OpenSectors(s.inodes);
    assert OpenSectors(s.inodes) == {FREE_MAP_SECTOR};
    assert Live(s) == {FREE_MAP_SECTOR, ROOT_DIR_SECTOR};
    FormatSpace(s, p);
    assert Handles(s.files, p) == {FREE_MAP_FILE} && Deniers(s.files, p) == {};
  }

  lemma RootSectors()
    ensures SectorsFor(ROOT_ENTRIES * D.ENTRY_SIZE) == 1
  {
  }

  lemma FormatSpace(s: FS, p: nat)
    requires Formatted(s, p)
    ensures SpaceOk(s.disk, s.freeMap, {FREE_MAP_SECTOR, ROOT_DIR_SECTOR})
  {
    hide MapSize, SectorsFor, Contents, InodeAt;
    RootSectors();
  }

  lemma NoNames(s: FS)
    requires Formed(s.disk) && InodeAt(s.disk, ROOT_DIR_SECTOR).length == ROOT_ENTRIES * D.ENTRY_SIZE
             && Fits(s.disk, InodeAt(s.disk, ROOT_DIR_SECTOR))
    requires Contents(s.disk, InodeAt(s.disk, ROOT_DIR_SECTOR)) == Zeros(ROOT_ENTRIES * D.ENTRY_SIZE)
    ensures Named(RootEntries(s)) == {} && forall k :: 0 <= k < |RootEntries(s)| ==> !RootEntries(s)[k].inUse
  {
    hide Contents, InodeAt;
    var bytes := Contents(s.disk, InodeAt(s.disk, ROOT_DIR_SECTOR));
    forall k: nat | k < |D.Entries(bytes)| ensures !D.Entries(bytes)[k].inUse {
      assert D.Raw(bytes, k)[19] == 0;
    }
  }

  lemma HasElement(q: seq<nat>)
    ensures q != [] ==> exists t :: t in q
  {
    if q != [] {
      assert q[0] in q;
    }
  }

  lemma FormattedClose(s: FS, p: nat)
    requires Formatted(s, p)
    ensures Idle(CloseFile(s, FREE_MAP_FILE, true, true), s.disk)
  {
    hide Contents, InodeAt, MapSize, SectorsFor;
    assert s.files - {FREE_MAP_FILE} == map[] && s.inodes - {p} == map[];
    var rest := Without([p], p);
    FilterElements([p], q => q != p);
    HasElement(rest);
  }

  /** filesys_init() succeeds exactly when the device has room and there is memory for every
      step. */
  lemma BootSucceedsIff(disk: Disk, env: BootEnv)
    requires Formed(disk) && |disk| >= 2
    ensures Boot(disk, env).Some? <==>
              && 3 + SectorsFor(MapSize(|disk|)) <= |disk| && env.bitmap
              && env.mapInode && env.ptr1.Some? && env.file1 && MapGoesOut(|disk|, env.mapWrite)
              && env.rootInode && MapGoesOut(|disk|, env.rootWrite)
              && env.ptr2.Some? && env.file2 && MapGoesOut(|disk|, env.mapRead)
  {
    hide Formatted, Inv, Persisted, NamedOrRemoved, Mount, Format, SectorsFor, MapSize, CloseFile, Live;
    hide RootEntries, MapGoesOut;
    FormatIff(disk, env);
    if Format(disk, env).Some? {
      var s := Format(disk, env).value;
      FormatSatisfiesInv(s, env.ptr1.value);
      FormattedClose(s, env.ptr1.value);
      MountRestores(s, CloseFile(s, FREE_MAP_FILE, true, true), env.ptr2, env.file2, env.mapRead);
    }
  }

  /** A freshly formatted and mounted device satisfies the invariant; exactly the two inodes,
      the free map and the directory are marked, and there are no names. */
  lemma BootSatisfiesInv(disk: Disk, env: BootEnv)
    requires Formed(disk) && |disk| >= 2 && Boot(disk, env).Some?
    ensures var s := Boot(disk, env).value;
            && Inv(s, multiset{}) && NamedOrRemoved(s) && Persisted(s)
            && |s.disk| == |disk| && s.freeMap == FirstTaken(|disk|, 3 + SectorsFor(MapSize(|disk|)))
            && forall k :: 0 <= k < |RootEntries(s)| ==> !RootEntries(s)[k].inUse
  {
    hide Inv, Persisted, NamedOrRemoved, Mount, Format, SectorsFor, MapSize, CloseFile, Live, RootEntries;
    hide MapGoesOut, FirstTaken, InodeAt, Contents;
    FormatIff(disk, env);
    var s := Format(disk, env).value;
    FormatSatisfiesInv(s, env.ptr1.value);
    FormattedClose(s, env.ptr1.value);
    MountRestores(s, CloseFile(s, FREE_MAP_FILE, true, true), env.ptr2, env.file2, env.mapRead);
    RootSectors();
    NoNames(s);
  }
}
