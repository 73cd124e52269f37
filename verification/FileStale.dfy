/** When the free map on the device falls behind the one in memory: a write of the free map that
    finds no bounce buffer still moves the whole sectors at its head. */
module FileStale {

  import opened Blocks
  import opened InodeData
  import opened FileSystem
  import opened FileInvariant
  import opened FileOps
  import opened FileRuns
  import FileMount

  // ----- Bytes and bits -----

  /** The bytes of the free map of n sectors that are written without a bounce buffer. */
  function HeadBytes(n: nat): nat {
    MapSize(n) / SECTOR_SIZE * SECTOR_SIZE
  }

  function HeadBits(n: nat): nat {
    8 * HeadBytes(n)
  }

  lemma PackedByte(a: seq<bool>, b: seq<bool>, q: nat)
    requires |a| == |b| && q < MapSize(|a|)
    ensures Packed(a)[q] == Packed(b)[q] <==> forall k :: 8 * q <= k < 8 * q + 8 && k < |a| ==> a[k] == b[k]
  {
    hide PackByte, FileMount.BitOfByte, MapSize;
    if Packed(a)[q] == Packed(b)[q] {
      forall k | 8 * q <= k < 8 * q + 8 && k < |a| ensures a[k] == b[k] {
        FileMount.UnpackByte(a, q, k - 8 * q);
        FileMount.UnpackByte(b, q, k - 8 * q);
      }
    }
    if forall k :: 8 * q <= k < 8 * q + 8 && k < |a| ==> a[k] == b[k] {
      SameByte(a, b, q);
    }
  }

  lemma SameByte(a: seq<bool>, b: seq<bool>, q: nat)
    requires |a| == |b| && forall k :: 8 * q <= k < 8 * q + 8 && k < |a| ==> a[k] == b[k]
    ensures PackByte(a, q) == PackByte(b, q)
  {
  }

  /** Two free maps agree in the tail of their bytes, or the head, exactly when they agree there. */
  lemma TailsAgree(a: seq<bool>, b: seq<bool>, h: nat)
    requires |a| == |b| && h <= MapSize(|a|)
    ensures Packed(a)[h..] == Packed(b)[h..] <==> forall k :: 8 * h <= k < |a| ==> a[k] == b[k]
  {
    hide Packed, MapSize;
    BitsInBytes(|a|);
    var m := MapSize(|a|);
    if Packed(a)[h..] == Packed(b)[h..] {
      forall k | 8 * h <= k < |a| ensures a[k] == b[k] {
        assert Packed(a)[h..][k / 8 - h] == Packed(a)[k / 8] && Packed(b)[h..][k / 8 - h] == Packed(b)[k / 8];
        PackedByte(a, b, k / 8);
      }
    }
    if forall k :: 8 * h <= k < |a| ==> a[k] == b[k] {
      forall q | h <= q < m ensures Packed(a)[q] == Packed(b)[q] {
        PackedByte(a, b, q);
      }
    }
  }

  lemma HeadsAgree(a: seq<bool>, b: seq<bool>, h: nat)
    requires |a| == |b| && h <= MapSize(|a|)
    ensures Packed(a)[..h] == Packed(b)[..h] <==> forall k :: 0 <= k < |a| && k < 8 * h ==> a[k] == b[k]
  {
    hide Packed, MapSize;
    BitsInBytes(|a|);
    if Packed(a)[..h] == Packed(b)[..h] {
      forall k | 0 <= k < |a| && k < 8 * h ensures a[k] == b[k] {
        assert Packed(a)[..h][k / 8] == Packed(a)[k / 8] && Packed(b)[..h][k / 8] == Packed(b)[k / 8];
        PackedByte(a, b, k / 8);
      }
    }
    if forall k :: 0 <= k < |a| && k < 8 * h ==> a[k] == b[k] {
      forall q | 0 <= q < h ensures Packed(a)[q] == Packed(b)[q] {
        PackedByte(a, b, q);
      }
    }
  }

  lemma BitsInBytes(n: nat)
    ensures n <= 8 * MapSize(n)
  {
  }

  // ----- The free map's file -----

  /** The bytes of the free map on the device. */
  ghost function MapFile(disk: Disk): seq<Byte> {
    EntireFile(disk, InodeAt(disk, FREE_MAP_SECTOR))
  }

  ghost function EntireFile(disk: Disk, d: InodeDisk): seq<Byte> {
    if Formed(disk) && Fits(disk, d) then Contents(disk, d) else []
  }

  lemma MapFileIs(s: FS, extra: multiset<nat>)
    requires Inv(s, extra)
    ensures |s.freeMap| == |s.disk| && |MapFile(s.disk)| == MapSize(|s.disk|)
    ensures Persisted(s) <==> MapFile(s.disk) == Packed(s.freeMap)
  {
    hide Live, CountsOk, CachedOk, NamesOk, TableOk, InodeAt, Contents, Packed, MapSize, SpaceOk;
    SpaceSizes(s.disk, s.freeMap, Live(s));
    ReservedLive(s);
  }

  /** What a write of the free map leaves in its file. */
  function Rewritten(bytes: seq<Byte>, marks: seq<bool>, memory: bool): seq<Byte> {
    var h := HeadBytes(|marks|);
    if MapGoesOut(|marks|, memory) || |bytes| < h then Packed(marks) else Packed(marks)[..h] + bytes[h..]
  }

  lemma HeadMoved(n: nat, memory: bool)
    ensures Moved(MapSize(n), 0, MapSize(n), memory) == if MapGoesOut(n, memory) then MapSize(n) else HeadBytes(n)
    ensures HeadBytes(n) <= MapSize(n)
  {
  }

  lemma WriteMapBytes(s: FS, extra: multiset<nat>, memory: bool)
    requires Inv(s, extra)
    ensures MapFile(WriteMap(s, memory).disk) == Rewritten(MapFile(s.disk), s.freeMap, memory)
  {
    hide MapGoesOut, HeadBytes, Moved, Live, SpaceOk, CountsOk, CachedOk, NamesOk, TableOk, InodeAt, InExtent, Packed;
    hide WriteBytes, Contents, MapSize, RootEntries;
    NoDeniers(s, extra);
    MapFileIs(s, extra);
    ReservedLive(s);
    SpaceSizes(s.disk, s.freeMap, Live(s));
    WriteMapKeeps(s, extra, memory);
    HeadMoved(|s.disk|, memory);
    var d := InodeAt(s.disk, FREE_MAP_SECTOR);
    var m := MapMoved(s, memory);
    WriteBytesContents(s.disk, d, 0, Packed(s.freeMap)[..m]);
    SameInode(s.disk, WriteMap(s, memory).disk, FREE_MAP_SECTOR);
    SplicedHead(Contents(s.disk, d), Packed(s.freeMap), m);
  }

  lemma SplicedHead(bytes: seq<Byte>, data: seq<Byte>, m: nat)
    requires m <= |data| == |bytes|
    ensures Splice(bytes, 0, data[..m]) == data[..m] + bytes[m..]
    ensures m == |data| ==> Splice(bytes, 0, data[..m]) == data
  {
  }

  /** free_map_release() leaves the map on the device up to date if its write is complete or the
      tail of the file already is what it should be. */
  lemma ReleaseBytes(s: FS, extra: multiset<nat>, start: nat, cnt: nat, memory: bool)
    requires Inv(s, extra) && start + cnt <= |s.freeMap| && Unowned(s, start, cnt)
    ensures var s' := Release(s, start, cnt, memory);
            && MapFile(s'.disk) == Rewritten(MapFile(s.disk), s'.freeMap, memory)
            && |s'.freeMap| == |s.freeMap| == |s.disk| == |s'.disk| && |MapFile(s.disk)| == MapSize(|s.disk|)
            && s'.freeMap == B.SetRange(s.freeMap, start, cnt, false) && Inv(s', extra)
            && (Persisted(s') <==> MapFile(s'.disk) == Packed(s'.freeMap))
  {
    hide Occupies, SpaceOk, Live, CountsOk, CachedOk, NamesOk, TableOk, RolesOk, RootEntries, WriteMap, Persisted;
    hide KeepsFile, Rewritten, MapFile, MapSize;
    ReleaseKeeps(s, extra, start, cnt, memory);
    MapFileIs(s, extra);
    MapFileIs(Release(s, start, cnt, memory), extra);
    var map' := B.SetRange(s.freeMap, start, cnt, false);
    forall x, b: nat | x in Live(s) && b < |map'| && s.freeMap[b] && Occupies(s.disk, x, b) ensures map'[b] {
      assert !(start <= b < start + cnt);
    }
    MapChange(s, map', extra);
    WriteMapBytes(s.(freeMap := map'), extra, memory);
  }

  /** The tail of the file is what a complete write would have left. */
  ghost predicate TailOk(bytes: seq<Byte>, marks: seq<bool>) {
    |bytes| == MapSize(|marks|) && bytes[HeadBytes(|marks|)..] == Packed(marks)[HeadBytes(|marks|)..]
  }

  lemma RewrittenIsPacked(bytes: seq<Byte>, marks: seq<bool>, memory: bool)
    requires |bytes| == MapSize(|marks|)
    ensures Rewritten(bytes, marks, memory) == Packed(marks) <==> MapGoesOut(|marks|, memory) || TailOk(bytes, marks)
  {
    HeadMoved(|marks|, memory);
    hide HeadBytes, MapGoesOut, Packed, MapSize;
    var h := HeadBytes(|marks|);
    assert Packed(marks) == Packed(marks)[..h] + Packed(marks)[h..];
  }

  /** An incomplete write does not touch the tail; a complete one sets it. */
  lemma RewrittenTail(bytes: seq<Byte>, marks: seq<bool>, memory: bool, other: seq<bool>)
    requires |bytes| == MapSize(|marks|) && |other| == |marks|
    ensures !MapGoesOut(|marks|, memory) ==> (TailOk(Rewritten(bytes, marks, memory), other) <==> TailOk(bytes, other))
    ensures MapGoesOut(|marks|, memory) ==>
              (TailOk(Rewritten(bytes, marks, memory), other) <==> TailOk(Packed(marks), other))
  {
    HeadMoved(|marks|, memory);
    hide HeadBytes, MapGoesOut, Packed, MapSize;
    var h := HeadBytes(|marks|);
    if !MapGoesOut(|marks|, memory) {
      assert (Packed(marks)[..h] + bytes[h..])[h..] == bytes[h..];
    }
  }

  /** The tails of two maps. */
  lemma TailOkIff(a: seq<bool>, b: seq<bool>)
    requires |a| == |b|
    ensures TailOk(Packed(a), b) <==> forall k :: HeadBits(|a|) <= k < |a| ==> a[k] == b[k]
  {
    HeadMoved(|a|, false);
    hide HeadBytes, Packed, MapSize;
    TailsAgree(a, b, HeadBytes(|a|));
  }

  // ----- Releases -----

  lemma RangeBits(marks: seq<bool>, start: nat, cnt: nat, h: nat)
    requires B.AllAre(marks, start, cnt, true)
    ensures (forall k :: h <= k < |marks| ==> marks[k] == B.SetRange(marks, start, cnt, false)[k]) <==>
            cnt == 0 || start + cnt <= h
  {
    if cnt > 0 && start + cnt > h {
      var k := start + cnt - 1;
      assert marks[k] && !B.SetRange(marks, start, cnt, false)[k];
    }
  }

  /** A release whose file had the right tail. */
  lemma ReleaseIff(s: FS, extra: multiset<nat>, start: nat, cnt: nat, memory: bool)
    requires Inv(s, extra) && Unowned(s, start, cnt) && B.AllAre(s.freeMap, start, cnt, true)
    requires TailOk(MapFile(s.disk), s.freeMap)
    ensures Persisted(Release(s, start, cnt, memory)) <==>
            MapGoesOut(|s.disk|, memory) || cnt == 0 || start + cnt <= HeadBits(|s.disk|)
  {
    hide Inv, Unowned, Release, Persisted, Rewritten, MapFile, MapSize, Packed, MapGoesOut, HeadBytes;
    ReleaseBytes(s, extra, start, cnt, memory);
    var map' := B.SetRange(s.freeMap, start, cnt, false);
    RewrittenIsPacked(MapFile(s.disk), map', memory);
    TailOkIff(s.freeMap, map');
    HeadMoved(|s.freeMap|, memory);
    assert TailOk(MapFile(s.disk), map') <==> TailOk(Packed(s.freeMap), map');
    RangeBits(s.freeMap, start, cnt, HeadBits(|s.disk|));
  }

  lemma PersistedTail(s: FS, extra: multiset<nat>)
    requires Inv(s, extra) && Persisted(s)
    ensures TailOk(MapFile(s.disk), s.freeMap) && MapFile(s.disk) == Packed(s.freeMap) && |s.freeMap| == |s.disk|
  {
    hide Inv, MapFile, MapSize, Packed;
    MapFileIs(s, extra);
  }

  // ----- Closing -----

  /** The two incomplete writes after a removed inode in sector x was freed leave one of its
      sectors marked on the device. */
  predicate FreesStale(n: nat, x: nat, d: InodeDisk, mem1: bool, mem2: bool) {
    && !MapGoesOut(n, mem2)
    && ((d.length > 0 && d.start + SectorsFor(d.length) > HeadBits(n)) || (!MapGoesOut(n, mem1) && x >= HeadBits(n)))
  }

  lemma TwoRanges(marks: seq<bool>, x: nat, start: nat, cnt: nat, h: nat)
    requires x < |marks| && marks[x] && B.AllAre(B.SetRange(marks, x, 1, false), start, cnt, true)
    ensures var map1 := B.SetRange(marks, x, 1, false);
            var map2 := B.SetRange(map1, start, cnt, false);
            && ((forall k :: h <= k < |marks| ==> map1[k] == map2[k]) <==> cnt == 0 || start + cnt <= h)
            && ((forall k :: h <= k < |marks| ==> marks[k] == map2[k]) <==> x < h && (cnt == 0 || start + cnt <= h))
  {
    var map1 := B.SetRange(marks, x, 1, false);
    var map2 := B.SetRange(map1, start, cnt, false);
    RangeBits(map1, start, cnt, h);
    if x < h && (cnt == 0 || start + cnt <= h) {
    } else if x < h {
      var k := start + cnt - 1;
      assert map1[k] && marks[k] && !map2[k];
    } else {
      assert marks[x] && !map2[x];
    }
  }

  /** inode_close() leaves the free map on the device up to date, or not, exactly so. */
  lemma CloseInodeIff(s: FS, extra: multiset<nat>, p: nat, mem1: bool, mem2: bool)
    requires Inv(s, extra + multiset{p}) && p in s.inodes && Persisted(s)
    ensures var i := s.inodes[p];
            Persisted(CloseInode(s, p, mem1, mem2)) <==>
            !(i.openCnt == 1 && i.removed && FreesStale(|s.disk|, i.sector, i.data, mem1, mem2))
  {
    hide Inv, Release, Persisted, Without, FreesStale, Live, RootEntries, KeepsFile, Fits, B.AllAre;
    CloseInodeKeeps(s, extra, p, mem1, mem2);
    var i := s.inodes[p];
    if i.openCnt == 1 && i.removed {
      FreedIff(s, extra, p, mem1, mem2);
    } else {
      SamePersisted(s, CloseInode(s, p, mem1, mem2));
    }
  }

  lemma FreedIff(s: FS, extra: multiset<nat>, p: nat, mem1: bool, mem2: bool)
    requires Inv(s, extra + multiset{p}) && p in s.inodes && Persisted(s) && s.inodes[p].openCnt == 1
             && s.inodes[p].removed
    ensures Persisted(CloseInode(s, p, mem1, mem2)) <==>
            !FreesStale(|s.disk|, s.inodes[p].sector, s.inodes[p].data, mem1, mem2)
  {
    hide SpaceOk, RootEntries, InodeAt, CountsOk, CachedOk, NamesOk, RolesOk, TableOk, Without, Live, Occupies;
    hide Persisted, Release, InExtent, Unowned, Rewritten, MapFile, MapSize, Packed, MapGoesOut, HeadBytes, TailOk;
    hide B.AllAre;
    var i := s.inodes[p];
    var n := SectorsFor(i.data.length);
    var s1 := s.(list := Without(s.list, p), inodes := s.inodes - {p});
    PersistedTail(s, extra + multiset{p});
    SpaceSizes(s.disk, s.freeMap, Live(s));
    InodeIsLive(s, p);
    OldInode(s, extra + multiset{p}, p);
    RemoveInodeFromTable(s, extra, p);
    OwnSpace(s.disk, s.freeMap, Live(s), i.sector);
    LeavesUnowned(s, s1, i.sector);
    ReleaseKeeps(s1, extra, i.sector, 1, mem1);
    ReleaseBytes(s1, extra, i.sector, 1, mem1);
    var s2 := Release(s1, i.sector, 1, mem1);
    UnownedFrame(s1, s2, i.data.start, n);
    ReleaseBytes(s2, extra, i.data.start, n, mem2);
    FreedBytes(s.freeMap, i.sector, i.data.start, n, mem1, mem2);
    assert n == 0 <==> i.data.length == 0;
  }

  /** The bytes after two releases. */
  lemma FreedBytes(marks: seq<bool>, x: nat, start: nat, cnt: nat, mem1: bool, mem2: bool)
    requires B.AllAre(marks, x, 1, true) && x < |marks| && B.AllAre(B.SetRange(marks, x, 1, false), start, cnt, true)
    ensures var map1 := B.SetRange(marks, x, 1, false);
            var map2 := B.SetRange(map1, start, cnt, false);
            var h := HeadBits(|marks|);
            Rewritten(Rewritten(Packed(marks), map1, mem1), map2, mem2) == Packed(map2) <==>
            !(!MapGoesOut(|marks|, mem2) && ((cnt > 0 && start + cnt > h) || (!MapGoesOut(|marks|, mem1) && x >= h)))
  {
    hide Packed, MapSize, MapGoesOut, Rewritten, TailOk;
    var map1 := B.SetRange(marks, x, 1, false);
    var map2 := B.SetRange(map1, start, cnt, false);
    var bytes := Rewritten(Packed(marks), map1, mem1);
    RewrittenSize(Packed(marks), map1, mem1);
    RewrittenIsPacked(bytes, map2, mem2);
    RewrittenTail(Packed(marks), map1, mem1, map2);
    TailOkIff(marks, map2);
    TailOkIff(map1, map2);
    TwoRanges(marks, x, start, cnt, HeadBits(|marks|));
  }

  lemma RewrittenSize(bytes: seq<Byte>, marks: seq<bool>, memory: bool)
    requires |bytes| == MapSize(|marks|)
    ensures |Rewritten(bytes, marks, memory)| == MapSize(|marks|)
  {
  }

  // ----- Failing creates -----

  /** A filesys_create() that fails leaves the free map on the device stale: a sector marked on
      the device alone, because its give-back there was cut off, or the mark of a sector that was
      never handed out. */
  ghost predicate FailureStale(marks: seq<bool>, env: Env) {
    var x, n := B.FirstGroup(marks, 0, 1, false), |marks|;
    x.Some? && if MapGoesOut(n, env.map1) then !MapGoesOut(n, env.map3) && x.value >= HeadBits(n)
      else x.value < HeadBits(n)
  }

  lemma AllocateBytes(s: FS, extra: multiset<nat>, cnt: nat, memory: bool)
    requires Inv(s, extra)
    ensures var g, s' := B.FirstGroup(s.freeMap, 0, cnt, false), Allocate(s, cnt, memory).0;
            && (g.None? ==> s' == s)
            && (g.Some? ==>
                MapFile(s'.disk) == Rewritten(MapFile(s.disk), B.SetRange(s.freeMap, g.value, cnt, true), memory))
  {
    hide Occupies, SpaceOk, Live, CountsOk, CachedOk, NamesOk, TableOk, RootEntries, WriteMap, MapWritten, KeepsFile;
    hide B.FirstGroup, MapFile, Rewritten, MapInode, MapSize;
    var g := B.FirstGroup(s.freeMap, 0, cnt, false);
    if g.Some? {
      var s1 := s.(freeMap := B.SetRange(s.freeMap, g.value, cnt, true));
      MapChange(s, s1.freeMap, extra);
      WriteMapBytes(s1, extra, memory);
    }
  }

  /** A failing inode_create() does not touch the tail of the free map's file. */
  lemma FailedInodeTail(s: FS, extra: multiset<nat>, x: nat, length: nat, memory: bool, mapMemory: bool)
    requires Inv(s, extra) && x < |s.freeMap| && s.freeMap[x] && Unowned(s, x, 1) && length < LENGTH_LIMIT
    requires !CreateInode(s, x, length, memory, mapMemory).1 && TailOk(MapFile(s.disk), s.freeMap)
    ensures TailOk(MapFile(CreateInode(s, x, length, memory, mapMemory).0.disk), s.freeMap)
  {
    hide Inv, Unowned, Allocate, MapFile, Rewritten, TailOk, MapSize, SectorsFor, Live, RootEntries, KeepsFile;
    hide Persisted;
    hide B.FirstGroup, CreatedAt, MapGoesOut, ZeroSectors, EncodeInode;
    CreateInodeKeeps(s, extra, x, length, memory, mapMemory);
    if memory {
      var n := SectorsFor(length);
      MapFileIs(s, extra);
      AllocateKeeps(s, extra, n, mapMemory);
      AllocateBytes(s, extra, n, mapMemory);
      var g := B.FirstGroup(s.freeMap, 0, n, false);
      if g.Some? {
        RewrittenTail(MapFile(s.disk), B.SetRange(s.freeMap, g.value, n, true), mapMemory, s.freeMap);
      }
    }
  }

  /** An allocation whose write was cut off and undone. */
  lemma UndoneIff(s: FS, extra: multiset<nat>, memory: bool)
    requires Inv(s, extra) && Persisted(s) && !MapGoesOut(|s.disk|, memory)
    ensures Persisted(Allocate(s, 1, memory).0) <==>
            !(B.FirstGroup(s.freeMap, 0, 1, false).Some?
              && B.FirstGroup(s.freeMap, 0, 1, false).value < HeadBits(|s.disk|))
  {
    hide Inv, Unowned, Allocate, MapFile, Live, RootEntries, KeepsFile, Persisted, B.FirstGroup, MapSize, Packed;
    hide MapGoesOut;
    hide HeadBytes;
    AllocateKeeps(s, extra, 1, memory);
    AllocateBytes(s, extra, 1, memory);
    PersistedTail(s, extra);
    var g, s' := B.FirstGroup(s.freeMap, 0, 1, false), Allocate(s, 1, memory).0;
    MapFileIs(s', extra);
    if g.Some? {
      MarkBytes(s.freeMap, g.value, memory);
    }
  }

  lemma MarkBytes(marks: seq<bool>, x: nat, memory: bool)
    requires x < |marks| && !marks[x] && !MapGoesOut(|marks|, memory)
    ensures Rewritten(Packed(marks), B.SetRange(marks, x, 1, true), memory) == Packed(marks) <==> x >= HeadBits(|marks|)
  {
    HeadMoved(|marks|, memory);
    hide Packed, MapSize, MapGoesOut, HeadBytes;
    var h, map' := HeadBytes(|marks|), B.SetRange(marks, x, 1, true);
    HeadsAgree(map', marks, h);
    assert map'[x] != marks[x];
    var bytes := Rewritten(Packed(marks), map', memory);
    assert bytes[..h] == Packed(map')[..h] && bytes[h..] == Packed(marks)[h..];
    assert bytes == bytes[..h] + bytes[h..] && Packed(marks) == Packed(marks)[..h] + Packed(marks)[h..];
  }

  lemma CreateInIff(s: FS, dir: nat, name: D.Name, size: nat, env: Env)
    requires Inv(s, multiset{dir}) && dir in s.inodes && s.inodes[dir].sector == ROOT_DIR_SECTOR
    requires |env.stack| == D.ENTRY_SIZE && size < LENGTH_LIMIT && Persisted(s)
    ensures Persisted(CreateIn(s, dir, name, size, env).0) <==>
            CreateIn(s, dir, name, size, env).1 || !FailureStale(s.freeMap, env)
  {
    hide MapGoesOut, SpaceOk, Inv, Live, RootEntries, Persisted, KeepsFile, Allocate, Release, CreateInode, AddName;
    hide Unowned, D.Add, InodeAt, Occupies, Contents, Formed, Fits, B.AllAre, B.FirstGroup, MapFile, TailOk;
    hide HeadBytes, MapSize;
    CreateInKeeps(s, dir, name, size, env);
    AllocateKeeps(s, multiset{dir}, 1, env.map1);
    PersistedTail(s, multiset{dir});
    var (s1, r) := Allocate(s, 1, env.map1);
    if !MapGoesOut(|s.disk|, env.map1) {
      UndoneIff(s, multiset{dir}, env.map1);
    } else if r.Some? && !CreateIn(s, dir, name, size, env).1 {
      var x := r.value;
      NewMarked(s.freeMap, x);
      PersistedTail(s1, multiset{dir});
      CreateInodeKeeps(s1, multiset{dir}, x, size, env.inodeMem, env.map2);
      var (s2, made) := CreateInode(s1, x, size, env.inodeMem, env.map2);
      if !made {
        FailedInodeTail(s1, multiset{dir}, x, size, env.inodeMem, env.map2);
        OneMarked(s2.freeMap, x);
        ReleaseIff(s2, multiset{dir}, x, 1, env.map3);
      } else {
        CreatedHasRoom(s1, s2, x, size);
        AddNameKeeps(s2, multiset{dir}, dir, name, x, env);
        var s3 := AddName(s2, dir, name, x, env).0;
        StillUnowned(s2, s3, x);
        PersistedTail(s3, multiset{dir});
        OneMarked(s3.freeMap, x);
        ReleaseIff(s3, multiset{dir}, x, 1, env.map3);
      }
    }
  }

  lemma NewMarked(marks: seq<bool>, x: nat)
    requires x + 1 <= |marks|
    ensures B.SetRange(marks, x, 1, true)[x]
  {
  }

  lemma OneMarked(marks: seq<bool>, x: nat)
    requires x < |marks| && marks[x]
    ensures B.AllAre(marks, x, 1, true)
  {
  }

  // ----- Steps -----

  /** The file that the name stands for is not open, and freeing it is cut off on the device. */
  ghost predicate RemovalStale(s: FS, name: D.Name, env: Env) {
    var k := D.Find(RootEntries(s), name, 0, env.lim1);
    && k.Some?
    && var x := RootEntries(s)[k.value].sector;
       x !in OpenSectors(s.inodes) && FreesStale(|s.disk|, x, InodeAt(s.disk, x), env.map1, env.map2)
  }

  /** The step leaves a free map on the device that is not the one in memory. */
  ghost predicate LeavesStale(s: FS, op: Op) {
    match op
    case CreateOp(name, size, env) =>
      RootOpens(s, env) && !Creates(s, name, size, env) && FailureStale(s.freeMap, env)
    case RemoveOp(name, env) =>
      RootOpens(s, env) && Reaches(s, name, env) && env.entryMem && RemovalStale(s, name, env)
    case CloseOp(f, env) =>
      && f in s.files && s.files[f].inode in s.inodes
      && var i := s.inodes[s.files[f].inode];
         i.openCnt == 1 && i.removed && FreesStale(|s.disk|, i.sector, i.data, env.map1, env.map2)
    case _ => false
  }

  lemma CreateIff(s: FS, name: D.Name, size: nat, env: Env)
    requires Inv(s, multiset{}) && FreshEnv(s, env) && size < LENGTH_LIMIT && Persisted(s)
    ensures Persisted(Create(s, name, size, env).0) <==> !LeavesStale(s, CreateOp(name, size, env))
  {
    hide MapGoesOut, Inv, Live, RootEntries, Named, CloseInode, OpenRoot, CreateIn, Persisted, NamedOrRemoved;
    hide RootOpens, Creates, FailureStale, Spares, Grows, NewFile, RemovedBefore, OpenSectors;
    CreateSucceedsIff(s, name, size, env);
    OpenRootKeeps(s, env);
    RootOpensIff(s, env);
    var (s1, dir) := OpenRoot(s, env);
    if dir.Some? {
      CreateInIff(s1, dir.value, name, size, env);
      CreateInKeeps(s1, dir.value, name, size, env);
      assert multiset{} + multiset{dir.value} == multiset{dir.value};
      var s2 := CreateIn(s1, dir.value, name, size, env).0;
      CloseNamed(s2, multiset{}, dir.value, env.map1, env.map2);
      SamePersisted(s2, CloseInode(s2, dir.value, env.map1, env.map2));
    } else {
      SamePersisted(s, s1);
    }
  }

  lemma CloseFileIff(s: FS, f: nat, mem1: bool, mem2: bool)
    requires Inv(s, multiset{}) && f in s.files && f != FREE_MAP_FILE && Persisted(s)
    ensures s.files[f].inode in s.inodes
    ensures var i := s.inodes[s.files[f].inode];
            Persisted(CloseFile(s, f, mem1, mem2)) <==>
            !(i.openCnt == 1 && i.removed && FreesStale(|s.disk|, i.sector, i.data, mem1, mem2))
  {
    hide Inv, Live, RootEntries, CloseInode, Persisted, NamedOrRemoved, FreesStale;
    InvTable(s, multiset{});
    HandleIsOpen(s, multiset{}, f);
    var s1 := AllowWrite(s, f);
    if s.files[f].deny {
      DenyKeeps(s, multiset{}, f, false);
    }
    FileRemoved(s1, multiset{}, f);
    var s2 := s1.(files := s1.files - {f});
    SamePersisted(s, s2);
    CloseInodeIff(s2, multiset{}, s.files[f].inode, mem1, mem2);
  }

  /** The erasure and the close in dir_remove(). */
  lemma EraseIff(s: FS, dir: nat, k: nat, p: nat, env: Env)
    requires Inv(s, multiset{dir, p}) && dir in s.inodes && s.inodes[dir].sector == ROOT_DIR_SECTOR && p in s.inodes
    requires k < |RootEntries(s)| && RootEntries(s)[k].inUse && s.inodes[p].sector == RootEntries(s)[k].sector
    requires Persisted(s)
    ensures var i := s.inodes[p];
            Persisted(CloseInode(RemoveInode(EraseEntry(s, dir, k, true), p), p, env.map1, env.map2)) <==>
            !(i.openCnt == 1 && FreesStale(|s.disk|, i.sector, i.data, env.map1, env.map2))
  {
    hide Inv, Live, RootEntries, CloseInode, RemoveInode, Persisted, NamedOrRemoved, EraseEntry, Spares, FreesStale;
    EraseAndMark(s, multiset{dir, p}, dir, k, p);
    var s2 := RemoveInode(EraseEntry(s, dir, k, true), p);
    assert multiset{dir, p} == multiset{dir} + multiset{p};
    CloseInodeIff(s2, multiset{dir}, p, env.map1, env.map2);
  }

  lemma RemoveNameIff(s: FS, dir: nat, name: D.Name, env: Env)
    requires Inv(s, multiset{dir}) && dir in s.inodes && s.inodes[dir].sector == ROOT_DIR_SECTOR
    requires (env.ptr.Some? ==> env.ptr.value !in s.inodes) && Persisted(s)
    ensures Persisted(RemoveName(s, dir, name, env).0) <==>
            !(RemoveName(s, dir, name, env).1 && RemovalStale(s, name, env))
  {
    hide Inv, Live, RootEntries, Named, CloseInode, OpenInode, RemoveInode, EraseEntry, Persisted, NamedOrRemoved;
    hide D.Find, OpenSectors, FreesStale, EntriesOf, Effect, InodeAt;
    ReachedIff(s, multiset{dir}, dir, name, env);
    var k := LookupName(s, dir, name, env.lim1);
    if k.Some? {
      var x := RootEntries(s)[k.value].sector;
      FoundIsNamed(RootEntries(s), k.value);
      NamedIsLive(s, x);
      OpenInodeKeeps(s, multiset{dir}, x, env.ptr);
      OpenInodeSectors(s, multiset{dir}, x, env.ptr);
      var (s1, p) := OpenInode(s, x, env.ptr);
      SamePersisted(s, s1);
      if p.Some? {
        assert multiset{dir} + multiset{p.value} == multiset{dir, p.value};
        if env.entryMem {
          InvTable(s1, multiset{dir, p.value});
          OldInode(s1, multiset{dir, p.value}, p.value);
          InodeCounts(s1, multiset{dir, p.value}, p.value);
          EraseIff(s1, dir, k.value, p.value, env);
        } else {
          EraseFails(s1, dir, k.value, p.value, env);
        }
      }
    }
  }

  lemma RemoveIff(s: FS, name: D.Name, env: Env)
    requires Inv(s, multiset{}) && FreshEnv(s, env) && Persisted(s)
    ensures Persisted(Remove(s, name, env).0) <==> !LeavesStale(s, RemoveOp(name, env))
  {
    hide Inv, Live, RootEntries, Named, CloseInode, OpenRoot, RemoveName, Persisted, NamedOrRemoved, D.Find, Effect;
    hide Reclaims, OpenSectors, RootOpens, Reaches, FreesStale, RemovedBefore;
    OpenRootKeeps(s, env);
    RootOpensIff(s, env);
    var (s1, d) := OpenRoot(s, env);
    if d.Some? {
      var dir := d.value;
      ReachesFromRoot(s, s1, multiset{dir}, name, env);
      RemoveSucceeds(s1, dir, name, env);
      RemoveNameKeeps(s1, dir, name, env);
      RemoveNameIff(s1, dir, name, env);
      StaleFromRoot(s, s1, multiset{dir}, name, env);
      var s2 := RemoveName(s1, dir, name, env).0;
      assert multiset{} + multiset{dir} == multiset{dir};
      CloseNamed(s2, multiset{}, dir, env.map1, env.map2);
      SamePersisted(s2, CloseInode(s2, dir, env.map1, env.map2));
    } else {
      SamePersisted(s, s1);
    }
  }

  lemma StaleFromRoot(s: FS, s1: FS, extra: multiset<nat>, name: D.Name, env: Env)
    requires Inv(s1, extra) && SameSpace(s, s1) && RootEntries(s1) == RootEntries(s)
    requires OpenSectors(s1.inodes) - {ROOT_DIR_SECTOR} == OpenSectors(s.inodes) - {ROOT_DIR_SECTOR}
    ensures RemovalStale(s1, name, env) <==> RemovalStale(s, name, env)
  {
    hide RootEntries, Inv, OpenSectors, D.Find, FreesStale, Live;
    var k := D.Find(RootEntries(s), name, 0, env.lim1);
    if k.Some? {
      var x := RootEntries(s)[k.value].sector;
      FoundIsNamed(RootEntries(s), k.value);
      NamedNotReserved(s1, extra, x);
      assert x in OpenSectors(s1.inodes) <==> x in OpenSectors(s1.inodes) - {ROOT_DIR_SECTOR};
    }
  }

  /** A step from an up-to-date device leaves it up to date or stale exactly as this says. */
  lemma PersistedIff(s: FS, op: Op)
    requires Inv(s, multiset{}) && Legal(s, op) && Persisted(s)
    ensures Persisted(Step(s, op)) <==> !LeavesStale(s, op)
  {
    hide Inv, Persisted, Create, Remove, CloseFile, Open, ReopenFile, DenyWrite, AllowWrite, WriteFile, Seek, Effect;
    hide Reclaims, NamedOrRemoved, RootEntries, FreesStale, FailureStale, RootOpens, Creates, Reaches, OpenSectors;
    hide TakesUsedSlot;
    match op
    case CreateOp(name, size, env) => CreateIff(s, name, size, env);
    case RemoveOp(name, env) => RemoveIff(s, name, env);
    case CloseOp(f, env) => CloseFileIff(s, f, env.map1, env.map2);
    case _ => StepKeeps(s, op);
  }
}
