/** The file system as the kernel runs it: a block device, a bitmap and tables that the
    operations of free-map.c, inode.c, file.c and filesys.c change in place.  Every method is
    proved to do what the function of the same operation in `FileSystem` says. */
module Files {

  import opened Lists
  import opened Blocks
  import opened InodeData
  import opened FileSystem
  import opened FileInvariant
  import opened FileOps
  import opened FileRuns
  import M = FileMount

  /** What writing the free map out needs. */
  ghost predicate MapReady(s: FS) {
    Writable(s) && |s.freeMap| == |s.disk| && Fits(s.disk, MapInode(s).data)
  }

  lemma InvMapReady(s: FS, extra: multiset<nat>)
    requires Inv(s, extra)
    ensures MapReady(s)
  {
    hide TableOk, CountsOk, CachedOk, NamesOk, Live, InodeAt;
    NoDeniers(s, extra);
    ReservedLive(s);
    SpaceSizes(s.disk, s.freeMap, Live(s));
  }

  /** What inode_close() needs: at the last close of a removed inode, sectors that exist and a
      free map that can be written. */
  ghost predicate CanClose(s: FS, p: nat) {
    && p in s.inodes && |s.freeMap| == |s.disk|
    && var i := s.inodes[p];
       (i.openCnt == 1 && i.removed ==>
          && i.sector + 1 <= |s.freeMap| && Fits(s.disk, i.data)
          && MapReady(s.(list := Without(s.list, p), inodes := s.inodes - {p})))
  }

  lemma CloseReady(s: FS, extra: multiset<nat>, p: nat, mem1: bool, mem2: bool)
    requires Inv(s, extra + multiset{p})
    ensures CanClose(s, p) && Inv(CloseInode(s, p, mem1, mem2), extra)
  {
    hide Inv, Release, MapReady, Live, RootEntries, CloseInode, Without, KeepsFile;
    CloseInodeKeeps(s, extra, p, mem1, mem2);
    MapSizes(s, extra + multiset{p});
    if s.inodes[p].openCnt == 1 && s.inodes[p].removed {
      RemoveInodeFromTable(s, extra, p);
      InvMapReady(s.(list := Without(s.list, p), inodes := s.inodes - {p}), extra);
    }
  }

  lemma MapSizes(s: FS, extra: multiset<nat>)
    requires Inv(s, extra)
    ensures |s.freeMap| == |s.disk|
  {
  }

  /** Every open file can be closed, that of the free map too. */
  lemma FileCanClose(s: FS, f: nat)
    requires Inv(s, multiset{}) && f in s.files
    ensures s.files[f].inode in s.inodes
    ensures CanClose(AllowWrite(s, f).(files := AllowWrite(s, f).files - {f}), s.files[f].inode)
  {
    hide Inv, MapReady, Live, RootEntries, CloseInode, Without, NamedOrRemoved;
    InvTable(s, multiset{});
    HandleIsOpen(s, multiset{}, f);
    MapSizes(s, multiset{});
    if f == FREE_MAP_FILE {
      MapFileStays(s);
    } else {
      if s.files[f].deny {
        DenyKeeps(s, multiset{}, f, false);
      }
      FileRemoved(AllowWrite(s, f), multiset{}, f);
      CloseReady(AllowWrite(s, f).(files := AllowWrite(s, f).files - {f}), multiset{}, s.files[f].inode, true, true);
    }
  }

  lemma MapFileStays(s: FS)
    requires Inv(s, multiset{})
    ensures MapFileOpen(s) && !MapInode(s).removed && !s.files[FREE_MAP_FILE].deny
  {
    hide SpaceOk, TableOk, CountsOk, CachedOk, Live, RootEntries;
  }

  /** The search of inode_open() after k inodes did not match. */
  lemma FindOpenStep(list: seq<nat>, inodes: map<nat, Inode>, x: nat, k: nat)
    requires k <= |list| && forall p :: p in list ==> p in inodes
    ensures FindOpen(list[k..], inodes, x) ==
            if k == |list| then None
            else if inodes[list[k]].sector == x then Some(list[k])
            else FindOpen(list[k + 1..], inodes, x)
  {
    assert k < |list| ==> list[k..][1..] == list[k + 1..];
  }

  /** What a read of `size` bytes from position `pos` of a file leaves in a buffer: the bytes it
      moved, and the rest of the buffer as it was. */
  ghost predicate FilledFrom(bytes: seq<Byte>, pos: nat, size: nat, memory: bool, n: nat, before: seq<Byte>,
                             after: seq<Byte>) {
    && n == Moved(|bytes|, pos, size, memory) <= |before| == |after|
    && (n > 0 ==> pos + n <= |bytes| && after[..n] == bytes[pos..pos + n])
    && after[n..] == before[n..]
  }

  class Files {
    const dev: Device
    const freeMap: B.Bitmap
    var openInodes: seq<nat>
    var inodes: map<nat, Inode>
    var files: map<nat, File>

    ghost predicate Valid()
      reads this, dev, freeMap
    {
      freeMap.Valid() && Formed(dev.disk) && freeMap.bitCnt == |dev.disk|
    }

    ghost function St(): (s: FS)
      requires Valid()
      reads this, dev, freeMap, freeMap.bits
      ensures |s.freeMap| == |s.disk|
    {
      FS(dev.disk, freeMap.Contents(), openInodes, inodes, files)
    }

    /** inode_init() and free_map_init(). */
    constructor (dev: Device)
      requires Formed(dev.disk) && |dev.disk| >= 2
      ensures Valid() && fresh(freeMap) && fresh(freeMap.bits) && this.dev == dev
      ensures St() == M.Unmounted(dev.disk)
    {
      this.dev := dev;
      var marks := new B.Bitmap(|dev.disk|);
      freeMap := marks;
      openInodes, inodes, files := [], map[], map[];
      new;
      freeMap.Set(FREE_MAP_SECTOR, true);
      freeMap.Set(ROOT_DIR_SECTOR, true);
    }

    // ----- filesys_init() -----

    /** do_format(); false where the source panics. */
    method DoFormat(env: M.BootEnv) returns (ok: bool)
      requires Valid() && St() == M.Unmounted(dev.disk) && |dev.disk| >= 2
      modifies this, dev, freeMap.bits
      ensures Valid() && ok == M.Format(old(dev.disk), env).Some?
      ensures ok ==> St() == M.Format(old(dev.disk), env).value
    {
      hide CreateInode, WriteMap, MapSize, MapWritten, MapReady, CanClose;
      ghost var disk := dev.disk;
      M.MapLimit(freeMap.bitCnt);
      ok := InodeCreate(FREE_MAP_SECTOR, MapSize(freeMap.bitCnt), env.mapInode, true);
      if !ok || env.ptr1.None? || !env.file1 {
        return false;
      }
      M.NoMemoryNoInode(M.Unmounted(disk), FREE_MAP_SECTOR, MapSize(|disk|), true);
      M.FormatMap(disk, env.ptr1.value);
      var p := InodeOpen(FREE_MAP_SECTOR, env.ptr1);
      var _ := FileOpen(Some(env.ptr1.value), Some(FREE_MAP_FILE), true, true);
      assert St() == M.MapOpened(disk, env.ptr1.value);
      FormatReady(disk, env.ptr1.value, env.mapWrite);
      ok := WriteFreeMap(env.mapWrite);
      if ok {
        ok := InodeCreate(ROOT_DIR_SECTOR, ROOT_ENTRIES * D.ENTRY_SIZE, env.rootInode, env.rootWrite);
      }
    }

    /** free_map_open() on a device whose inode of the free map lies within it; false where
        the source panics. */
    method FreeMapOpen(mem: Option<nat>, file: bool, memory: bool) returns (ok: bool)
      requires Valid() && M.Idle(St(), dev.disk) && |dev.disk| >= 2
               && Fits(dev.disk, InodeAt(dev.disk, FREE_MAP_SECTOR))
      modifies this, dev, freeMap.bits
      ensures Valid() && ok == M.Mount(old(St()), mem, file, memory).Some?
      ensures ok ==> St() == M.Mount(old(St()), mem, file, memory).value
    {
      hide Fits, Moved, Contents, M.Unpacked, MapSize, Slice, B.BitOf;
      var p := InodeOpen(FREE_MAP_SECTOR, mem);
      if p.None? || !file {
        return false;
      }
      var _ := FileOpen(p, Some(FREE_MAP_FILE), true, true);
      var size := MapSize(freeMap.bitCnt);
      var buffer := new Byte[size];
      var n := dev.ReadAt(inodes[p.value].data, buffer, size, 0, memory);
      if n != size {
        return false;
      }
      M.SliceIsFirst(dev.disk, inodes[p.value].data, size, memory);
      assert buffer[..] == Slice(dev.disk, inodes[p.value].data, 0, size);
      LoadBits(buffer[..]);
      return true;
    }

    /** bitmap_read() once the bytes are there. */
    method LoadBits(bytes: seq<Byte>)
      requires Valid() && |bytes| == MapSize(freeMap.bitCnt)
      modifies freeMap.bits
      ensures Valid() && St() == old(St()).(freeMap := M.Unpacked(bytes, freeMap.bitCnt))
    {
      hide M.BitOfByte, B.BitOf;
      ghost var bits := M.Unpacked(bytes, freeMap.bitCnt);
      var k := 0;
      while k < freeMap.bitCnt
        invariant 0 <= k <= freeMap.bitCnt && Valid()
        invariant St() == old(St()).(freeMap := freeMap.Contents())
        invariant freeMap.Contents()[..k] == bits[..k]
      {
        ghost var before := freeMap.Contents();
        freeMap.Set(k, M.BitOfByte(bytes[k / 8], k % 8));
        assert freeMap.Contents()[..k] == before[..k];
        k := k + 1;
        assert freeMap.Contents()[..k] == freeMap.Contents()[..k - 1] + [bits[k - 1]];
        assert bits[..k] == bits[..k - 1] + [bits[k - 1]];
      }
      assert freeMap.Contents()[..k] == freeMap.Contents() && bits[..k] == bits;
    }

    /** filesys_init(), after the tables and the bitmap were made; false where the source
        panics. */
    method FilesysInit(format: bool, env: M.BootEnv) returns (ok: bool)
      requires Valid() && St() == M.Unmounted(dev.disk) && |dev.disk| >= 2
      requires !format ==> Fits(dev.disk, InodeAt(dev.disk, FREE_MAP_SECTOR))
      modifies this, dev, freeMap.bits
      ensures Valid() && (env.bitmap ==> ok == M.Start(old(dev.disk), format, env).Some?)
      ensures ok && env.bitmap ==> St() == M.Start(old(dev.disk), format, env).value
      ensures ok && env.bitmap && format ==> Inv(St(), multiset{})
    {
      hide M.Format, M.Mount, CloseFile, Inv, MapSize, M.Formatted, Persisted, NamedOrRemoved, Fits, Live;
      hide RootEntries, MapGoesOut, M.FirstTaken, InodeAt;
      ghost var disk := dev.disk;
      if format {
        ok := FormatAndClose(env);
        if !ok {
          return;
        }
      }
      ok := FreeMapOpen(env.ptr2, env.file2, env.mapRead);
      if ok && env.bitmap && format {
        M.BootSatisfiesInv(disk, env);
      }
    }

    /** do_format() with its free_map_close(). */
    method FormatAndClose(env: M.BootEnv) returns (ok: bool)
      requires Valid() && St() == M.Unmounted(dev.disk) && |dev.disk| >= 2
      modifies this, dev, freeMap.bits
      ensures Valid() && ok == M.Format(old(dev.disk), env).Some?
      ensures ok ==> St() == CloseFile(M.Format(old(dev.disk), env).value, FREE_MAP_FILE, true, true)
      ensures ok ==> M.Idle(St(), dev.disk) && Fits(dev.disk, InodeAt(dev.disk, FREE_MAP_SECTOR))
      ensures |dev.disk| >= 2
    {
      hide M.Format, CloseFile, Inv, MapSize, M.Formatted, Persisted, NamedOrRemoved, Fits, Live, RootEntries;
      hide MapGoesOut, M.FirstTaken, InodeAt;
      ghost var disk := dev.disk;
      ok := DoFormat(env);
      if !ok {
        return;
      }
      M.FormatIff(disk, env);
      M.FormatSatisfiesInv(St(), env.ptr1.value);
      M.FormattedClose(St(), env.ptr1.value);
      M.MapFileKnown(St());
      MapFileStays(St());
      FileClose(Some(FREE_MAP_FILE), true, true);
    }

    // ----- free-map.c -----

    /** bitmap_write(). */
    method WriteFreeMap(memory: bool) returns (ok: bool)
      requires Valid() && MapReady(St())
      modifies dev
      ensures Valid() && St() == WriteMap(old(St()), memory)
      ensures ok == MapWritten(old(St()), memory)
    {
      hide WriteBytes, Moved, Fits;
      var bytes := MapBytes();
      var i := inodes[files[FREE_MAP_FILE].inode];
      var n := dev.WriteAt(i.data, i.denyCnt, bytes, 0, memory);
      ok := n == |bytes|;
    }

    /** The words of the bitmap as bytes. */
    method MapBytes() returns (bytes: seq<Byte>)
      requires Valid()
      ensures bytes == Packed(St().freeMap)
    {
      hide PackByte;
      var size := MapSize(freeMap.bitCnt);
      bytes := [];
      while |bytes| < size
        invariant |bytes| <= size
        invariant bytes == Packed(St().freeMap)[..|bytes|]
        decreases size - |bytes|
      {
        var b := PackedByte(|bytes|);
        bytes := bytes + [b];
      }
    }

    method PackedByte(i: nat) returns (b: Byte)
      requires Valid()
      ensures b == PackByte(St().freeMap, i)
    {
      hide BitValue, St, Valid;
      var v0 := TestBit(8 * i);
      var v1 := TestBit(8 * i + 1);
      var v2 := TestBit(8 * i + 2);
      var v3 := TestBit(8 * i + 3);
      var v4 := TestBit(8 * i + 4);
      var v5 := TestBit(8 * i + 5);
      var v6 := TestBit(8 * i + 6);
      var v7 := TestBit(8 * i + 7);
      b := v0 + 2 * v1 + 4 * v2 + 8 * v3 + 16 * v4 + 32 * v5 + 64 * v6 + 128 * v7;
    }

    method TestBit(k: nat) returns (v: nat)
      requires Valid()
      ensures v == BitValue(St().freeMap, k) && v <= 1
    {
      v := 0;
      if k < freeMap.bitCnt {
        var bit := freeMap.Test(k);
        v := if bit then 1 else 0;
      }
    }

    /** free_map_allocate(). */
    method FreeMapAllocate(cnt: nat, memory: bool) returns (sector: Option<nat>)
      requires Valid() && (FREE_MAP_FILE in files ==> MapReady(St()))
      modifies dev, freeMap.bits
      ensures Valid()
      ensures (St(), sector) == Allocate(old(St()), cnt, memory)
    {
      hide WriteMap, MapWritten;
      ghost var before := freeMap.Contents();
      sector := freeMap.ScanAndFlip(0, cnt, false);
      B.FirstGroupUnique(before, 0, cnt, false, sector, B.FirstGroup(before, 0, cnt, false));
      if sector.Some? {
        ghost var s1 := St();
        assert s1 == old(St()).(freeMap := SetBits(before, sector.value, cnt, true));
        if FREE_MAP_FILE in files {
          var written := WriteFreeMap(memory);
          WriteMapShape(s1, memory);
          if !written {
            freeMap.SetMultiple(sector.value, cnt, false);
            sector := None;
          }
        }
      }
    }

    /** free_map_release(). */
    method FreeMapRelease(start: nat, cnt: nat, memory: bool)
      requires Valid() && MapReady(St()) && start + cnt <= |St().freeMap|
      modifies dev, freeMap.bits
      ensures Valid() && St() == Release(old(St()), start, cnt, memory)
    {
      freeMap.SetMultiple(start, cnt, false);
      var _ := WriteFreeMap(memory);
    }

    // ----- inode.c -----

    /** inode_create(). */
    method InodeCreate(x: nat, length: nat, memory: bool, mapMemory: bool) returns (ok: bool)
      requires Valid() && (FREE_MAP_FILE in files ==> MapReady(St())) && x < |St().disk| && length < LENGTH_LIMIT
      modifies dev, freeMap.bits
      ensures Valid()
      ensures (St(), ok) == CreateInode(old(St()), x, length, memory, mapMemory)
    {
      hide Allocate, EncodeInode, SectorsFor, MapReady;
      if !memory {
        return false;
      }
      ghost var s := St();
      var n := SectorsFor(length);
      var start := FreeMapAllocate(n, mapMemory);
      AllocateShape(s, n, mapMemory);
      if start.None? {
        return false;
      }
      dev.Write(x, EncodeInode(InodeDisk(start.value, length)));
      ghost var disk := dev.disk;
      var i := 0;
      while i < n
        invariant i <= n && Valid() && St() == Allocate(s, n, mapMemory).0.(disk := dev.disk)
        invariant dev.disk == ZeroSectors(disk, start.value, i)
      {
        dev.Write(start.value + i, Zeros(SECTOR_SIZE));
        i := i + 1;
        assert dev.disk == ZeroSectors(disk, start.value, i);
      }
      return true;
    }

    /** inode_open(). */
    method InodeOpen(x: nat, mem: Option<nat>) returns (r: Option<nat>)
      requires Valid() && TableOk(openInodes, inodes) && x < |St().disk|
      modifies this
      ensures Valid() && (St(), r) == OpenInode(old(St()), x, mem)
    {
      hide FindOpen, DecodeInode;
      assert openInodes[0..] == openInodes;
      var k := 0;
      while k < |openInodes|
        invariant k <= |openInodes|
        invariant St() == old(St())
        invariant FindOpen(openInodes[k..], inodes, x) == FindOpen(openInodes, inodes, x)
        decreases |openInodes| - k
      {
        var p := openInodes[k];
        FindOpenStep(openInodes, inodes, x, k);
        if inodes[p].sector == x {
          var _ := InodeReopen(Some(p));
          return Some(p);
        }
        k := k + 1;
      }
      FindOpenStep(openInodes, inodes, x, k);
      if mem.Some? {
        var block := dev.Read(x);
        openInodes := [mem.value] + openInodes;
        inodes := inodes[mem.value := Inode(x, 1, false, 0, DecodeInode(block))];
      }
      r := mem;
    }

    /** inode_reopen(). */
    method InodeReopen(p: Option<nat>) returns (r: Option<nat>)
      requires Valid() && (p.Some? ==> p.value in inodes)
      modifies this
      ensures Valid() && r == p && St() == if p.Some? then Reopen(old(St()), p.value) else old(St())
    {
      if p.Some? {
        var i := inodes[p.value];
        inodes := inodes[p.value := i.(openCnt := i.openCnt + 1)];
      }
      r := p;
    }

    /** inode_close(). */
    method InodeClose(inode: Option<nat>, mem1: bool, mem2: bool)
      requires Valid() && (inode.Some? ==> CanClose(St(), inode.value))
      modifies this, dev, freeMap.bits
      ensures Valid() && St() == if inode.Some? then CloseInode(old(St()), inode.value, mem1, mem2) else old(St())
    {
      if inode.None? {
        return;
      }
      var p := inode.value;
      hide Release, MapReady;
      ghost var s := St();
      var i := inodes[p];
      inodes := inodes[p := i.(openCnt := i.openCnt - 1)];
      if i.openCnt == 1 {
        openInodes := Without(openInodes, p);
        inodes := inodes - {p};
        assert inodes == s.inodes - {p};
        if i.removed {
          ReleaseShape(St(), i.sector, 1, mem1);
          FreeMapRelease(i.sector, 1, mem1);
          FreeMapRelease(i.data.start, SectorsFor(i.data.length), mem2);
        }
      }
    }

    /** inode_remove(). */
    method InodeRemove(p: nat)
      requires Valid() && p in inodes
      modifies this
      ensures Valid() && St() == RemoveInode(old(St()), p)
    {
      inodes := inodes[p := inodes[p].(removed := true)];
    }

    // ----- file.c -----

    /** file_open(). */
    method FileOpen(inode: Option<nat>, mem: Option<nat>, mem1: bool, mem2: bool) returns (f: Option<nat>)
      requires Valid() && (inode.Some? && mem.None? ==> CanClose(St(), inode.value))
      modifies this, dev, freeMap.bits
      ensures Valid()
      ensures (St(), f) == if inode.Some? then OpenFile(old(St()), inode.value, mem, mem1, mem2) else (old(St()), None)
    {
      hide CloseInode, CanClose;
      if inode.Some? && mem.Some? {
        files := files[mem.value := File(inode.value, 0, false)];
        f := mem;
      } else {
        InodeClose(inode, mem1, mem2);
        f := None;
      }
    }

    /** file_reopen(). */
    method FileReopen(f: nat, env: Env) returns (r: Option<nat>)
      requires Valid() && Inv(St(), multiset{}) && f in files
      modifies this, dev, freeMap.bits
      ensures Valid() && (St(), r) == ReopenFile(old(St()), f, env)
    {
      hide Inv, OpenFile;
      var p := files[f].inode;
      HandleIsOpen(St(), multiset{}, f) by { InvTable(St(), multiset{}); }
      ReopenKeeps(St(), multiset{}, p);
      var inode := InodeReopen(Some(p));
      CloseReady(St(), multiset{}, p, env.map1, env.map2);
      r := FileOpen(inode, env.fileId, env.map1, env.map2);
    }

    /** file_deny_write(). */
    method FileDenyWrite(f: nat)
      requires Valid() && f in files && files[f].inode in inodes
      modifies this
      ensures Valid() && St() == DenyWrite(old(St()), f)
    {
      if !files[f].deny {
        files := files[f := files[f].(deny := true)];
        var p := files[f].inode;
        inodes := inodes[p := inodes[p].(denyCnt := inodes[p].denyCnt + 1)];
      }
    }

    /** file_allow_write(). */
    method FileAllowWrite(f: nat)
      requires Valid() && f in files && files[f].inode in inodes
      modifies this
      ensures Valid() && St() == AllowWrite(old(St()), f)
    {
      if files[f].deny {
        files := files[f := files[f].(deny := false)];
        var p := files[f].inode;
        inodes := inodes[p := inodes[p].(denyCnt := inodes[p].denyCnt - 1)];
      }
    }

    /** file_close(). */
    method FileClose(file: Option<nat>, mem1: bool, mem2: bool)
      requires Valid() && Inv(St(), multiset{}) && (file.Some? ==> file.value in files)
      modifies this, dev, freeMap.bits
      ensures Valid() && St() == if file.Some? then CloseFile(old(St()), file.value, mem1, mem2) else old(St())
    {
      hide Inv, CloseInode, CanClose, Live, RootEntries;
      if file.None? {
        return;
      }
      var f := file.value;
      FileCanClose(St(), f);
      FileAllowWrite(f);
      var p := files[f].inode;
      files := files - {f};
      InodeClose(Some(p), mem1, mem2);
    }

    /** file_write(). */
    method FileWrite(f: nat, data: seq<Byte>, memory: bool) returns (n: nat)
      requires Valid() && Inv(St(), multiset{}) && f in files
      modifies this, dev
      ensures Valid() && St() == WriteFile(old(St()), f, data, memory)
      ensures n == WriteCount(old(St()), f, |data|, memory)
    {
      hide Inv, WriteBytes, Moved, Fits, InodeAt, Live, RootEntries, SpaceOk, Handles, Deniers;
      ghost var s := St();
      InvTable(s, multiset{});
      HandleIsOpen(s, multiset{}, f);
      var i := inodes[files[f].inode];
      InodeIsLive(s, files[f].inode);
      OldInode(s, multiset{}, files[f].inode);
      SpaceSizes(s.disk, s.freeMap, Live(s));
      n := dev.WriteAt(i.data, i.denyCnt, data, files[f].pos, memory);
      files := files[f := files[f].(pos := files[f].pos + n)];
    }

    /** file_read(). */
    method FileRead(f: nat, buffer: array<Byte>, size: nat, memory: bool) returns (n: nat)
      requires Valid() && Inv(St(), multiset{}) && f in files && size <= buffer.Length
               && buffer != freeMap.bits as object
      modifies this, buffer
      ensures Valid() && St() == Seek(old(St()), f, old(files[f].pos) + n)
      ensures old(files[f].inode) in inodes
      ensures FilledFrom(FileBytes(St(), inodes[old(files[f].inode)].sector), old(files[f].pos), size, memory, n,
                         old(buffer[..]), buffer[..])
    {
      hide Inv, Moved, InodeAt, Live, RootEntries, SpaceOk, Handles, Deniers, Contents, TableOk, NamesOk, B.BitOf;
      ghost var s := St();
      InvTable(s, multiset{});
      HandleIsOpen(s, multiset{}, f);
      var i := inodes[files[f].inode];
      InodeIsLive(s, files[f].inode);
      OldInode(s, multiset{}, files[f].inode);
      SpaceSizes(s.disk, s.freeMap, Live(s));
      n := dev.ReadAt(i.data, buffer, size, files[f].pos, memory);
      files := files[f := files[f].(pos := files[f].pos + n)];
    }

    // ----- filesys.c and directory.c -----

    /** dir_open_root(). */
    method DirOpenRoot(env: Env) returns (dir: Option<nat>)
      requires Valid() && Inv(St(), multiset{}) && FreshEnv(St(), env)
      modifies this, dev, freeMap.bits
      ensures Valid() && (St(), dir) == OpenRoot(old(St()), env)
    {
      hide Inv, CloseInode, OpenInode, RootEntries, Live, TableOk;
      ghost var s := St();
      InvTable(s, multiset{});
      ReservedLive(s);
      SpaceSizes(s.disk, s.freeMap, Live(s));
      OpenInodeKeeps(s, multiset{}, ROOT_DIR_SECTOR, env.rootPtr);
      dir := InodeOpen(ROOT_DIR_SECTOR, env.rootPtr);
      if dir.Some? && !env.dirMem {
        CloseReady(St(), multiset{}, dir.value, env.map1, env.map2);
        InodeClose(Some(dir.value), env.map1, env.map2);
        dir := None;
      }
    }

    /** dir_add(). */
    method DirAdd(dir: nat, name: D.Name, x: nat, env: Env, ghost extra: multiset<nat>) returns (ok: bool)
      requires Valid() && Inv(St(), extra) && dir in inodes && inodes[dir].sector == ROOT_DIR_SECTOR
      requires x < WORD_LIMIT && |env.stack| == D.ENTRY_SIZE
      modifies dev
      ensures Valid() && (St(), ok) == AddName(old(St()), dir, name, x, env)
    {
      hide Inv, D.AddToDisk, D.Add, Contents, InodeAt, RootEntries, D.Entries;
      RootIsOpen(St(), extra, dir);
      var d := new D.Dir(dev, inodes[dir].data);
      ok := d.AddName(name, x, env.lim1, env.lim2, env.entryMem, env.stack);
    }

    /** The steps of filesys_create() in the open directory. */
    method CreateInDir(dir: nat, name: D.Name, size: nat, env: Env) returns (ok: bool)
      requires Valid() && Inv(St(), multiset{dir}) && dir in inodes && inodes[dir].sector == ROOT_DIR_SECTOR
      requires |env.stack| == D.ENTRY_SIZE && size < LENGTH_LIMIT
      modifies dev, freeMap.bits
      ensures Valid() && (St(), ok) == CreateIn(old(St()), dir, name, size, env)
    {
      hide Inv, Allocate, CreateInode, AddName, Release, MapReady, MapOnly, Unowned, CreatedAt, RootEntries, Live;
      hide Persisted, D.Add, SpaceOk, DirWritten, B.AllAre;
      ghost var s := St();
      InvMapReady(s, multiset{dir});
      AllocateKeeps(s, multiset{dir}, 1, env.map1);
      var x := FreeMapAllocate(1, env.map1);
      if x.None? {
        return false;
      }
      ghost var s1 := St();
      InvMapReady(s1, multiset{dir});
      AllocatedMark(s, s1, x.value);
      CreateInodeKeeps(s1, multiset{dir}, x.value, size, env.inodeMem, env.map2);
      ok := InodeCreate(x.value, size, env.inodeMem, env.map2);
      ghost var s2 := St();
      InvMapReady(s2, multiset{dir});
      if ok {
        MapOnlyTables(s, s1);
        MapOnlyTables(s1, s2);
        CreatedHasRoom(s1, s2, x.value, size);
        SectorIsWord(s2.disk, x.value);
        AddNameKeeps(s2, multiset{dir}, dir, name, x.value, env);
        ok := DirAdd(dir, name, x.value, env, multiset{dir});
        InvMapReady(St(), multiset{dir});
      }
      if !ok {
        FreeMapRelease(x.value, 1, env.map3);
      }
    }

    /** filesys_create(). */
    method FilesysCreate(name: D.Name, size: nat, env: Env) returns (ok: bool)
      requires Valid() && Inv(St(), multiset{}) && FreshEnv(St(), env) && size < LENGTH_LIMIT
      modifies this, dev, freeMap.bits
      ensures Valid() && (St(), ok) == Create(old(St()), name, size, env)
      ensures Inv(St(), multiset{})
    {
      hide Inv, OpenRoot, CreateIn, CloseInode, RootEntries, Live, Persisted, NamedOrRemoved, Spares, Grows;
      hide NewFile, SameSpace, Effect, Reclaims, OpenSectors;
      ghost var s := St();
      CreateKeeps(s, name, size, env);
      OpenRootKeeps(s, env);
      var dir := DirOpenRoot(env);
      if dir.None? {
        return false;
      }
      CreateInKeeps(St(), dir.value, name, size, env);
      ok := CreateInDir(dir.value, name, size, env);
      assert multiset{} + multiset{dir.value} == multiset{dir.value};
      CloseReady(St(), multiset{}, dir.value, env.map1, env.map2);
      InodeClose(Some(dir.value), env.map1, env.map2);
    }

    /** lookup(). */
    method DirFind(dir: nat, name: D.Name, limit: nat, ghost extra: multiset<nat>)
        returns (k: Option<nat>, raw: seq<Byte>)
      requires Valid() && Inv(St(), extra) && dir in inodes && inodes[dir].sector == ROOT_DIR_SECTOR
      ensures k == LookupName(St(), dir, name, limit)
      ensures Formed(dev.disk) && Fits(dev.disk, inodes[dir].data)
      ensures k.Some? ==> k.value < inodes[dir].data.length / D.ENTRY_SIZE
      ensures k.Some? ==> raw == D.Raw(Contents(dev.disk, inodes[dir].data), k.value)
    {
      hide Inv, Contents, InodeAt, RootEntries, D.Find;
      RootIsOpen(St(), extra, dir);
      var d := new D.Dir(dev, inodes[dir].data);
      k, raw := d.Lookup(name, limit);
    }

    /** dir_lookup(). */
    method DirLookup(dir: nat, name: D.Name, env: Env) returns (p: Option<nat>)
      requires Valid() && Inv(St(), multiset{dir}) && dir in inodes && inodes[dir].sector == ROOT_DIR_SECTOR
      requires env.ptr.Some? ==> env.ptr.value !in inodes
      modifies this
      ensures Valid() && (St(), p) == LookupAndOpen(old(St()), dir, name, env)
      ensures Inv(St(), if p.Some? then multiset{p.value} + multiset{dir} else multiset{dir})
    {
      hide Inv, OpenInode, RootEntries, Live, Contents, LookupName, EntrySector, TableOk, TableOnly, OpenSectors;
      hide D.DecodeEntry, D.Raw;
      ghost var s := St();
      var k, raw := DirFind(dir, name, env.lim1, multiset{dir});
      if k.None? {
        return None;
      }
      FoundEntry(s, multiset{dir}, dir, name, env.lim1, raw);
      var x := D.DecodeEntry(raw).sector;
      OpenInodeKeeps(s, multiset{dir}, x, env.ptr);
      TableIsOk(s, multiset{dir});
      p := InodeOpen(x, env.ptr);
      assert p.Some? ==> multiset{dir} + multiset{p.value} == multiset{p.value} + multiset{dir};
    }

    /** filesys_open(). */
    method FilesysOpen(name: D.Name, env: Env) returns (r: Option<nat>)
      requires Valid() && Inv(St(), multiset{}) && FreshEnv(St(), env)
      modifies this, dev, freeMap.bits
      ensures Valid() && (St(), r) == Open(old(St()), name, env)
      ensures Inv(St(), multiset{})
    {
      hide Inv, OpenRoot, LookupAndOpen, OpenFile, CloseInode, RootEntries, Live, Persisted, NamedOrRemoved;
      hide OpenedAs, SameSpace, OpenSectors;
      ghost var s := St();
      OpenKeeps(s, name, env);
      OpenRootKeeps(s, env);
      var dirp := DirOpenRoot(env);
      if dirp.None? {
        return None;
      }
      var dir := dirp.value;
      assert multiset{} + multiset{dir} == multiset{dir};
      var p := DirLookup(dir, name, env);
      if p.None? {
        CloseReady(St(), multiset{}, dir, env.map1, env.map2);
        InodeClose(Some(dir), env.map1, env.map2);
        return None;
      }
      CloseReady(St(), multiset{p.value}, dir, env.map1, env.map2);
      InodeClose(Some(dir), env.map1, env.map2);
      assert multiset{} + multiset{p.value} == multiset{p.value};
      CloseReady(St(), multiset{}, p.value, env.map1, env.map2);
      r := FileOpen(Some(p.value), env.fileId, env.map1, env.map2);
    }

    /** dir_remove(). */
    method DirRemove(dir: nat, name: D.Name, env: Env) returns (ok: bool)
      requires Valid() && Inv(St(), multiset{dir}) && dir in inodes && inodes[dir].sector == ROOT_DIR_SECTOR
      requires env.ptr.Some? ==> env.ptr.value !in inodes
      modifies this, dev, freeMap.bits
      ensures Valid() && (St(), ok) == RemoveName(old(St()), dir, name, env)
    {
      hide Inv, OpenInode, CloseInode, RemoveInode, EraseEntry, RootEntries, Live, Contents, LookupName;
      hide EntrySector, TableOk, OpenSectors, D.DecodeEntry, D.Raw, Fits, Formed, InodeAt;
      ghost var s := St();
      var k, raw := DirFind(dir, name, env.lim1, multiset{dir});
      if k.None? {
        return false;
      }
      FoundEntry(s, multiset{dir}, dir, name, env.lim1, raw);
      var x := D.DecodeEntry(raw).sector;
      OpenInodeKeeps(s, multiset{dir}, x, env.ptr);
      TableIsOk(s, multiset{dir});
      var p := InodeOpen(x, env.ptr);
      if p.None? {
        return false;
      }
      RootIsOpen(s, multiset{dir}, dir);
      RootIsOpen(St(), multiset{dir} + multiset{p.value}, dir);
      ok := DirEraseAndMark(dir, k.value, raw, p.value, env.entryMem, multiset{dir} + multiset{p.value});
      CloseReady(St(), multiset{dir}, p.value, env.map1, env.map2);
      InodeClose(Some(p.value), env.map1, env.map2);
    }

    /** The middle of dir_remove(). */
    method DirEraseAndMark(dir: nat, k: nat, raw: seq<Byte>, p: nat, memory: bool, ghost extra: multiset<nat>)
        returns (ok: bool)
      requires Valid() && Inv(St(), extra) && dir in inodes && inodes[dir].sector == ROOT_DIR_SECTOR && p in inodes
      requires Fits(dev.disk, inodes[dir].data) && k < inodes[dir].data.length / D.ENTRY_SIZE
      requires raw == D.Raw(Contents(dev.disk, inodes[dir].data), k)
      requires k < |RootEntries(St())| && RootEntries(St())[k].inUse && RootEntries(St())[k].sector == inodes[p].sector
      modifies this, dev
      ensures Valid() && ok == memory && Inv(St(), extra)
      ensures St() == if memory then RemoveInode(EraseEntry(old(St()), dir, k, true), p)
              else EraseEntry(old(St()), dir, k, false)
    {
      hide Inv, RemoveInode, EraseEntry, RootEntries, Live, Contents, DirWritten, Named, D.Raw, InodeAt;
      ghost var s := St();
      EraseKeeps(s, extra, dir, k, p, memory);
      ok := DirErase(dir, k, raw, memory, extra);
      if ok {
        ErasedTables(s, St());
        RemoveInodeKeeps(St(), extra, p);
        InodeRemove(p);
      }
    }

    /** The write of the erased entry in dir_remove(). */
    method DirErase(dir: nat, k: nat, raw: seq<Byte>, memory: bool, ghost extra: multiset<nat>) returns (ok: bool)
      requires Valid() && Inv(St(), extra) && dir in inodes && inodes[dir].sector == ROOT_DIR_SECTOR
      requires Fits(dev.disk, inodes[dir].data) && k < inodes[dir].data.length / D.ENTRY_SIZE
      requires raw == D.Raw(Contents(dev.disk, inodes[dir].data), k)
      modifies dev
      ensures Valid() && St() == EraseEntry(old(St()), dir, k, memory) && ok == memory
    {
      hide Inv, Contents, InodeAt, RootEntries, D.EraseOnDisk;
      RootIsOpen(St(), extra, dir);
      var d := new D.Dir(dev, inodes[dir].data);
      ok := d.EraseEntry(k, raw, memory);
    }

    /** filesys_remove(). */
    method FilesysRemove(name: D.Name, env: Env) returns (ok: bool)
      requires Valid() && Inv(St(), multiset{}) && FreshEnv(St(), env)
      modifies this, dev, freeMap.bits
      ensures Valid() && (St(), ok) == Remove(old(St()), name, env)
      ensures Inv(St(), multiset{})
    {
      hide Inv, OpenRoot, RemoveName, CloseInode, RootEntries, Live, Persisted, NamedOrRemoved, SameSpace, Effect;
      hide Reclaims, OpenSectors, Removed;
      ghost var s := St();
      RemoveKeeps(s, name, env);
      OpenRootKeeps(s, env);
      var dir := DirOpenRoot(env);
      if dir.None? {
        return false;
      }
      RemoveNameKeeps(St(), dir.value, name, env);
      ok := DirRemove(dir.value, name, env);
      assert multiset{} + multiset{dir.value} == multiset{dir.value};
      CloseReady(St(), multiset{}, dir.value, env.map1, env.map2);
      InodeClose(Some(dir.value), env.map1, env.map2);
    }
  }

  lemma FormatReady(disk: Disk, p: nat, memory: bool)
    requires Formed(disk) && |disk| >= 2
             && CreateInode(M.Unmounted(disk), FREE_MAP_SECTOR, MapSize(|disk|), true, true).1
    ensures MapReady(M.MapOpened(disk, p))
    ensures var s := M.MapOpened(disk, p);
            MapWritten(s, memory) ==> MapReady(WriteMap(s, memory)) && |WriteMap(s, memory).disk| == |disk|
  {
    hide CreateInode, MapSize, WriteMap, MapGoesOut, M.FirstTaken;
    M.MapOpenedFacts(disk, p);
    M.MapWriteFrame(M.MapOpened(disk, p), MapSize(|disk|), p, memory);
  }

  lemma WriteMapShape(s: FS, memory: bool)
    ensures var s' := WriteMap(s, memory);
            && s' == s.(disk := s'.disk) && |s'.disk| == |s.disk|
            && (Formed(s.disk) ==> Formed(s'.disk))
  {
  }

  lemma AllocateShape(s: FS, cnt: nat, memory: bool)
    requires |s.freeMap| == |s.disk| && Formed(s.disk)
    ensures var (s', r) := Allocate(s, cnt, memory);
            && s' == s.(disk := s'.disk, freeMap := s'.freeMap) && |s'.disk| == |s.disk|
            && (r.Some? ==> r.value + cnt <= |s.disk| && r.value < WORD_LIMIT)
  {
    hide WriteMap, B.FirstGroup;
    var g := B.FirstGroup(s.freeMap, 0, cnt, false);
    if g.Some? {
      WriteMapShape(s.(freeMap := SetBits(s.freeMap, g.value, cnt, true)), memory);
    }
  }

  lemma ReleaseShape(s: FS, start: nat, cnt: nat, memory: bool)
    requires MapReady(s) && start + cnt <= |s.freeMap|
    ensures MapReady(Release(s, start, cnt, memory))
    ensures |Release(s, start, cnt, memory).freeMap| == |s.freeMap|
  {
    hide WriteMap;
    WriteMapShape(s.(freeMap := SetBits(s.freeMap, start, cnt, false)), memory);
  }

  lemma AllocatedMark(s: FS, s1: FS, x: nat)
    requires |s.freeMap| == |s.disk| && x + 1 <= |s.freeMap| && s1.freeMap == B.SetRange(s.freeMap, x, 1, true)
             && MapOnly(s, s1)
    ensures x < |s1.freeMap| && s1.freeMap[x] && x < |s1.disk|
  {
    hide Live, RootEntries, KeepsFile;
  }

  lemma MapOnlyTables(s: FS, s': FS)
    requires MapOnly(s, s')
    ensures s'.inodes == s.inodes && s'.files == s.files && s'.list == s.list
  {
    hide Live, RootEntries, KeepsFile;
  }

  /** The entry that lookup() copied out. */
  lemma FoundEntry(s: FS, extra: multiset<nat>, dir: nat, name: D.Name, limit: nat, raw: seq<Byte>)
    requires Inv(s, extra) && dir in s.inodes && s.inodes[dir].sector == ROOT_DIR_SECTOR
             && LookupName(s, dir, name, limit).Some?
    requires Formed(s.disk) && Fits(s.disk, s.inodes[dir].data)
    requires var k := LookupName(s, dir, name, limit).value;
             k < s.inodes[dir].data.length / D.ENTRY_SIZE && raw == D.Raw(Contents(s.disk, s.inodes[dir].data), k)
    ensures |raw| == D.ENTRY_SIZE
    ensures var k, x := LookupName(s, dir, name, limit).value, D.DecodeEntry(raw).sector;
            && x == EntrySector(s, dir, k) && x in Live(s) && x < |s.disk|
            && k < |RootEntries(s)| && RootEntries(s)[k].inUse && RootEntries(s)[k].sector == x
  {
    hide Inv, Live, Contents, InodeAt, Named;
    RootIsOpen(s, extra, dir);
    var k := LookupName(s, dir, name, limit).value;
    FoundIsNamed(RootEntries(s), k);
    NamedIsLive(s, RootEntries(s)[k].sector);
    InvTable(s, extra);
    SpaceSizes(s.disk, s.freeMap, Live(s));
  }

  lemma ErasedTables(s: FS, s': FS)
    requires DirWritten(s, s', Live(s))
    ensures s'.inodes == s.inodes && s'.files == s.files && s'.list == s.list && s'.freeMap == s.freeMap
  {
    hide Live, KeepsFile, Persisted;
  }

  lemma TableIsOk(s: FS, extra: multiset<nat>)
    requires Inv(s, extra)
    ensures TableOk(s.list, s.inodes)
  {
  }
}
