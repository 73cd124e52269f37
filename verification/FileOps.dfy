/** How the operations of inode.c, file.c, directory.c and filesys.c keep the invariant. */
module FileOps {

  import opened Lists
  import opened Blocks
  import opened FileSystem
  import opened FileInvariant

  // ----- The table of open inodes -----

  /** The operation touches only the table of open inodes, and there only counters and the
      inode at `p`. */
  ghost predicate TableOnly(s: FS, s': FS) {
    && s'.disk == s.disk && s'.freeMap == s.freeMap && s'.files == s.files
    && RootEntries(s') == RootEntries(s)
  }

  lemma SameDisk(s: FS, s': FS)
    requires s'.disk == s.disk
    ensures RootEntries(s') == RootEntries(s)
  {
  }

  lemma FindOpenFinds(s: FS, x: nat)
    requires TableOk(s.list, s.inodes)
    ensures FindOpen(s.list, s.inodes, x).Some? <==> x in OpenSectors(s.inodes)
  {
  }

  lemma OpenSectorsUpdate(inodes: map<nat, Inode>, p: nat, i: Inode)
    ensures p in inodes && inodes[p].sector == i.sector ==> OpenSectors(inodes[p := i]) == OpenSectors(inodes)
    ensures p !in inodes ==> OpenSectors(inodes[p := i]) == OpenSectors(inodes) + {i.sector}
  {
    var inodes' := inodes[p := i];
    forall q | q in inodes ensures q != p ==> inodes[q].sector in OpenSectors(inodes') {
      assert q in inodes';
    }
    assert inodes'[p].sector in OpenSectors(inodes');
  }

  /** The parts of the invariant that look at one open inode, after inode `p` became `i`. */
  lemma TablesUpdate(s: FS, p: nat, i: Inode, extra: multiset<nat>, extra': multiset<nat>)
    requires CountsOk(s.inodes, s.files, extra) && CachedOk(s.disk, s.inodes) && NamesOk(RootEntries(s), s.inodes)
    requires i.data == InodeAt(s.disk, i.sector)
    requires i.denyCnt == |Deniers(s.files, p)|
    requires i.removed ==> i.sector > ROOT_DIR_SECTOR && i.sector !in Named(RootEntries(s))
    requires i.openCnt == |Handles(s.files, p)| + extra'[p] && i.openCnt > 0
    requires forall q :: q in s.inodes && q != p ==> extra'[q] == extra[q]
    requires forall q :: q in extra' ==> q in s.inodes || q == p
    ensures var inodes' := s.inodes[p := i];
            CountsOk(inodes', s.files, extra') && CachedOk(s.disk, inodes') && NamesOk(RootEntries(s), inodes')
  {
    hide RootEntries, Named, InodeAt, Handles, Deniers;
  }

  lemma RolesUpdate(s: FS, s': FS, p: nat, i: Inode)
    requires RolesOk(s) && s'.files == s.files && s'.disk == s.disk && s'.inodes == s.inodes[p := i]
    requires if p in s.inodes then i.sector == s.inodes[p].sector
             else forall f :: f in s.files ==> s.files[f].inode != p
    ensures RolesOk(s')
  {
    hide InodeAt, MapSize;
  }

  lemma TableUpdate(list: seq<nat>, inodes: map<nat, Inode>, p: nat, i: Inode)
    requires TableOk(list, inodes) && p in inodes && i.sector == inodes[p].sector
    ensures TableOk(list, inodes[p := i])
  {
  }

  lemma OldInode(s: FS, extra: multiset<nat>, p: nat)
    requires CountsOk(s.inodes, s.files, extra) && CachedOk(s.disk, s.inodes) && p in s.inodes
    ensures s.inodes[p].denyCnt == |Deniers(s.files, p)| && s.inodes[p].data == InodeAt(s.disk, s.inodes[p].sector)
  {
  }

  lemma OneMore(extra: multiset<nat>, p: nat)
    ensures forall q :: (extra + multiset{p})[q] == extra[q] + if q == p then 1 else 0
    ensures forall q :: q in extra + multiset{p} <==> q in extra || q == p
  {
  }

  /** Changing counters and flags of one open inode. */
  lemma InodeChange(s: FS, p: nat, i: Inode, extra: multiset<nat>, extra': multiset<nat>)
    requires Inv(s, extra) && p in s.inodes
    requires i.sector == s.inodes[p].sector && i.data == s.inodes[p].data && i.denyCnt == s.inodes[p].denyCnt
    requires i.removed ==> i.sector > ROOT_DIR_SECTOR && i.sector !in Named(RootEntries(s))
    requires i.openCnt == |Handles(s.files, p)| + extra'[p] && i.openCnt > 0
    requires forall q :: q in s.inodes && q != p ==> extra'[q] == extra[q]
    requires forall q :: q in extra' ==> q in s.inodes
    ensures Inv(WithInode(s, p, i), extra') && Live(WithInode(s, p, i)) == Live(s)
    ensures TableOnly(s, WithInode(s, p, i))
  {
    hide SpaceOk, RootEntries, Named, InodeAt, CountsOk, CachedOk, NamesOk, RolesOk, TableOk, OpenSectors, Handles;
    hide Deniers;
    var s' := WithInode(s, p, i);
    OldInode(s, extra, p);
    TablesUpdate(s, p, i, extra, extra');
    TableUpdate(s.list, s.inodes, p, i);
    SameDisk(s, s');
    OpenSectorsUpdate(s.inodes, p, i);
    RolesUpdate(s, s', p, i);
  }

  lemma InodeCounts(s: FS, extra: multiset<nat>, p: nat)
    requires CountsOk(s.inodes, s.files, extra) && p in s.inodes
    ensures s.inodes[p].openCnt == |Handles(s.files, p)| + extra[p] && s.inodes[p].openCnt > 0
    ensures forall q :: q in extra ==> q in s.inodes
  {
  }

  lemma ReopenKeeps(s: FS, extra: multiset<nat>, p: nat)
    requires Inv(s, extra) && p in s.inodes
    ensures Inv(Reopen(s, p), extra + multiset{p}) && Live(Reopen(s, p)) == Live(s) && TableOnly(s, Reopen(s, p))
    ensures Reopen(s, p).inodes.Keys == s.inodes.Keys
  {
    hide SpaceOk, RootEntries, Named, CachedOk, RolesOk, TableOk, CountsOk, OpenSectors, Handles;
    InodeCounts(s, extra, p);
    OneMore(extra, p);
    RemovedUnnamed(s, p);
    InodeChange(s, p, s.inodes[p].(openCnt := s.inodes[p].openCnt + 1), extra, extra + multiset{p});
  }

  lemma RemovedUnnamed(s: FS, p: nat)
    requires NamesOk(RootEntries(s), s.inodes) && p in s.inodes
    ensures s.inodes[p].removed ==> s.inodes[p].sector > ROOT_DIR_SECTOR && s.inodes[p].sector !in Named(RootEntries(s))
  {
  }

  /** inode_open() of a live inode yields the only in-memory inode of that sector. */
  lemma OpenInodeKeeps(s: FS, extra: multiset<nat>, x: nat, mem: Option<nat>)
    requires Inv(s, extra) && x in Live(s) && (mem.Some? ==> mem.value !in s.inodes)
    ensures var (s', r) := OpenInode(s, x, mem);
            && TableOnly(s, s') && Live(s') == Live(s)
            && Inv(s', if r.Some? then extra + multiset{r.value} else extra)
            && (r.Some? ==> r.value in s'.inodes && s'.inodes[r.value].sector == x)
            && (r.None? <==> mem.None? && x !in OpenSectors(s.inodes))
            && (forall q :: q in s.inodes ==>
                q in s'.inodes && s'.inodes[q].sector == s.inodes[q].sector
                  && s'.inodes[q].removed == s.inodes[q].removed)
            && (forall q :: q in s'.inodes ==> q in s.inodes || (mem == Some(q) && !s'.inodes[q].removed))
  {
    hide Inv, Live, RootEntries, OpenSectors, TableOk, SpaceOk, NamesOk, CachedOk, CountsOk, Handles;
    var (s', r) := OpenInode(s, x, mem);
    SameDisk(s, s');
    InvTable(s, extra);
    FindOpenFinds(s, x);
    if r.Some? {
      if FindOpen(s.list, s.inodes, x).Some? {
        ReopenKeeps(s, extra, r.value);
      } else {
        AddInode(s, extra, x, r.value);
      }
    }
  }

  lemma OpenInodeSectors(s: FS, extra: multiset<nat>, x: nat, mem: Option<nat>)
    requires Inv(s, extra) && (mem.Some? ==> mem.value !in s.inodes)
    ensures var (s', r) := OpenInode(s, x, mem);
            && OpenSectors(s'.inodes) == OpenSectors(s.inodes) + (if r.Some? then {x} else {})
            && (r.Some? ==> r.value in s'.inodes && (s'.inodes[r.value].openCnt > 1 <==> x in OpenSectors(s.inodes)))
  {
    hide Inv, OpenSectors, TableOk, SpaceOk, NamesOk, CachedOk, CountsOk, Handles, FindOpen;
    InvTable(s, extra);
    FindOpenFinds(s, x);
    var (s', r) := OpenInode(s, x, mem);
    if r.Some? {
      OpenSectorsUpdate(s.inodes, r.value, s'.inodes[r.value]);
      if r.value in s.inodes {
        InodeCounts(s, extra, r.value);
      }
    }
  }

  lemma InvTable(s: FS, extra: multiset<nat>)
    requires Inv(s, extra)
    ensures TableOk(s.list, s.inodes) && SpaceOk(s.disk, s.freeMap, Live(s)) && NamesOk(RootEntries(s), s.inodes)
    ensures CachedOk(s.disk, s.inodes) && CountsOk(s.inodes, s.files, extra)
  {
  }

  lemma AddInode(s: FS, extra: multiset<nat>, x: nat, p: nat)
    requires Inv(s, extra) && x in Live(s) && p !in s.inodes && x !in OpenSectors(s.inodes)
    ensures var s' := s.(list := [p] + s.list, inodes := s.inodes[p := Inode(x, 1, false, 0, InodeAt(s.disk, x))]);
            Inv(s', extra + multiset{p}) && Live(s') == Live(s)
  {
    hide SpaceOk, RootEntries, Named, InodeAt, CountsOk, CachedOk, NamesOk, RolesOk, TableOk, OpenSectors, Handles;
    hide Deniers;
    var i := Inode(x, 1, false, 0, InodeAt(s.disk, x));
    var s' := s.(list := [p] + s.list, inodes := s.inodes[p := i]);
    NoHandles(s, extra, p);
    OneMore(extra, p);
    TablesUpdate(s, p, i, extra, extra + multiset{p});
    SameDisk(s, s');
    OpenSectorsUpdate(s.inodes, p, i);
    RolesUpdate(s, s', p, i);
    TableGrows(s, p, i);
    assert Live(s') == Live(s);
  }

  lemma TableGrows(s: FS, p: nat, i: Inode)
    requires TableOk(s.list, s.inodes) && p !in s.inodes && i.sector !in OpenSectors(s.inodes)
    ensures TableOk([p] + s.list, s.inodes[p := i])
  {
  }

  lemma NoHandles(s: FS, extra: multiset<nat>, p: nat)
    requires CountsOk(s.inodes, s.files, extra) && p !in s.inodes
    ensures |Handles(s.files, p)| == 0 && |Deniers(s.files, p)| == 0 && extra[p] == 0
    ensures forall f :: f in s.files ==> s.files[f].inode != p
    ensures forall q :: q in extra ==> q in s.inodes
  {
    assert Handles(s.files, p) == {} && Deniers(s.files, p) == {};
  }

  /** The last close takes the inode out of the table. */
  lemma RemoveInodeFromTable(s: FS, extra: multiset<nat>, p: nat)
    requires Inv(s, extra + multiset{p}) && p in s.inodes && s.inodes[p].openCnt == 1
    ensures var s' := s.(list := Without(s.list, p), inodes := s.inodes - {p});
            && Inv(s', extra) && TableOnly(s, s')
            && Live(s') <= Live(s) <= Live(s') + {s.inodes[p].sector}
            && (s.inodes[p].removed ==> s.inodes[p].sector !in Live(s'))
  {
    hide SpaceOk, RootEntries, Named, InodeAt, CountsOk, CachedOk, NamesOk, RolesOk, TableOk, OpenSectors, Filter;
    var s' := s.(list := Without(s.list, p), inodes := s.inodes - {p});
    LastHandle(s, extra, p);
    SameDisk(s, s');
    TableShrinks(s, p);
    TablesShrink(s, p, extra);
    RolesShrink(s, s', p);
    if s.inodes[p].removed {
      RemovedUnnamed(s, p);
    }
    SpaceDrop(s.disk, s.freeMap, Live(s), s.freeMap, Live(s'));
  }

  lemma LastHandle(s: FS, extra: multiset<nat>, p: nat)
    requires CountsOk(s.inodes, s.files, extra + multiset{p}) && p in s.inodes && s.inodes[p].openCnt == 1
    ensures extra[p] == 0 && forall f :: f in s.files ==> s.files[f].inode != p
  {
    OneMore(extra, p);
    assert Handles(s.files, p) == {};
    forall f | f in s.files ensures s.files[f].inode != p {
      assert f !in Handles(s.files, p);
    }
  }

  lemma TableShrinks(s: FS, p: nat)
    requires TableOk(s.list, s.inodes) && p in s.inodes
    ensures TableOk(Without(s.list, p), s.inodes - {p})
    ensures OpenSectors(s.inodes - {p}) == OpenSectors(s.inodes) - {s.inodes[p].sector}
  {
    FilterElements(s.list, q => q != p);
  }

  lemma TablesShrink(s: FS, p: nat, extra: multiset<nat>)
    requires CountsOk(s.inodes, s.files, extra + multiset{p}) && CachedOk(s.disk, s.inodes)
             && NamesOk(RootEntries(s), s.inodes)
    requires extra[p] == 0 && forall f :: f in s.files ==> s.files[f].inode != p
    ensures CountsOk(s.inodes - {p}, s.files, extra) && CachedOk(s.disk, s.inodes - {p})
            && NamesOk(RootEntries(s), s.inodes - {p})
  {
    hide RootEntries, Named, InodeAt, Handles, Deniers;
    OneMore(extra, p);
  }

  lemma RolesShrink(s: FS, s': FS, p: nat)
    requires RolesOk(s) && s'.files == s.files && s'.disk == s.disk && s'.inodes == s.inodes - {p}
    requires forall f :: f in s.files ==> s.files[f].inode != p
    ensures RolesOk(s')
  {
    hide InodeAt, MapSize;
  }

  /** What inode_close() does: the counter goes down; the last close takes the inode out of
      the table and, if it was removed, frees exactly its own sector and its extent. */
  ghost predicate ClosedInode(s: FS, p: nat, s': FS)
    requires p in s.inodes
  {
    var i := s.inodes[p];
    && s'.files == s.files && RootEntries(s') == RootEntries(s) && |s'.disk| == |s.disk|
    && s'.inodes == (if i.openCnt == 1 then s.inodes - {p} else s.inodes[p := i.(openCnt := i.openCnt - 1)])
    && (forall x :: x in Live(s') && x != FREE_MAP_SECTOR ==> KeepsFile(s.disk, s'.disk, x))
    && (if i.openCnt == 1 && i.removed then
          && Live(s') == Live(s) - {i.sector}
          && i.sector < |s.freeMap| && Fits(s.disk, i.data) && |s.freeMap| == |s.disk|
          && B.AllAre(s.freeMap, i.sector, 1, true)
          && B.AllAre(B.SetRange(s.freeMap, i.sector, 1, false), i.data.start, SectorsFor(i.data.length), true)
          && s'.freeMap
             == B.SetRange(B.SetRange(s.freeMap, i.sector, 1, false), i.data.start, SectorsFor(i.data.length), false)
        else
          && s'.disk == s.disk && s'.freeMap == s.freeMap
          && Live(s') <= Live(s) <= Live(s') + {i.sector})
  }

  lemma HeldIsOpen(s: FS, extra: multiset<nat>, p: nat)
    requires CountsOk(s.inodes, s.files, extra + multiset{p})
    ensures p in s.inodes
    ensures s.inodes[p].openCnt == |Handles(s.files, p)| + extra[p] + 1
  {
    OneMore(extra, p);
    assert p in extra + multiset{p};
  }

  /** The sectors of a live inode are marked, and no other live inode has them. */
  lemma OwnSpace(disk: Disk, marks: seq<bool>, live: set<nat>, x: nat)
    requires SpaceOk(disk, marks, live) && x in live
    ensures var d := InodeAt(disk, x);
            && x < |marks| && B.AllAre(marks, x, 1, true)
            && B.AllAre(B.SetRange(marks, x, 1, false), d.start, SectorsFor(d.length), true)
    ensures forall y, b: nat :: y in live && y != x && Occupies(disk, x, b) ==> !Occupies(disk, y, b)
  {
    var d := InodeAt(disk, x);
    assert Occupies(disk, x, x);
    forall b | d.start <= b < d.start + SectorsFor(d.length)
      ensures b < |marks| && marks[b] && b != x
    {
      assert Occupies(disk, x, b);
    }
  }

  lemma {:induction false} CloseInodeKeeps(s: FS, extra: multiset<nat>, p: nat, mem1: bool, mem2: bool)
    requires Inv(s, extra + multiset{p})
    ensures p in s.inodes && Inv(CloseInode(s, p, mem1, mem2), extra) && ClosedInode(s, p, CloseInode(s, p, mem1, mem2))
    ensures Persisted(s) && MapGoesOut(|s.disk|, mem2) ==> Persisted(CloseInode(s, p, mem1, mem2))
  {
    hide MapGoesOut, SpaceOk, RootEntries, Named, InodeAt, CountsOk, CachedOk, NamesOk, RolesOk, TableOk;
    hide OpenSectors, Filter, Without, Handles, Deniers, Live, Occupies, Persisted, Release, KeepsFile, InExtent;
    hide Fits, Formed, B.AllAre;
    HeldIsOpen(s, extra, p);
    InodeCounts(s, extra + multiset{p}, p);
    SpaceSizes(s.disk, s.freeMap, Live(s));
    var i := s.inodes[p];
    if i.openCnt != 1 {
      var s' := CloseInode(s, p, mem1, mem2);
      RemovedUnnamed(s, p);
      OneMore(extra, p);
      InodeChange(s, p, i.(openCnt := i.openCnt - 1), extra + multiset{p}, extra);
      SameFiles(s.disk, Live(s));
      SamePersisted(s, s');
    } else {
      var s1 := s.(list := Without(s.list, p), inodes := s.inodes - {p});
      RemoveInodeFromTable(s, extra, p);
      SamePersisted(s, s1);
      SameFiles(s.disk, Live(s));
      if i.removed {
        CloseRemoved(s, extra, p, mem1, mem2);
      }
    }
  }

  lemma SameFiles(disk: Disk, live: set<nat>)
    ensures forall x :: x in live ==> KeepsFile(disk, disk, x)
  {
  }

  lemma SamePersisted(s: FS, s': FS)
    requires s'.disk == s.disk && s'.freeMap == s.freeMap
    ensures Persisted(s') == Persisted(s)
  {
  }

  /** The last close of a removed file frees its inode's sector and its extent. */
  lemma CloseRemoved(s: FS, extra: multiset<nat>, p: nat, mem1: bool, mem2: bool)
    requires Inv(s, extra + multiset{p}) && p in s.inodes && s.inodes[p].openCnt == 1 && s.inodes[p].removed
    ensures Inv(CloseInode(s, p, mem1, mem2), extra) && ClosedInode(s, p, CloseInode(s, p, mem1, mem2))
    ensures MapGoesOut(|s.disk|, mem2) ==> Persisted(CloseInode(s, p, mem1, mem2))
  {
    hide MapGoesOut, SpaceOk, RootEntries, Named, InodeAt, CountsOk, CachedOk, NamesOk, RolesOk, TableOk;
    hide OpenSectors, Filter, Without, Handles, Deniers, Live, Occupies, Persisted, Release, KeepsFile, InExtent;
    hide Unowned, Formed, B.AllAre;
    var i := s.inodes[p];
    var n := SectorsFor(i.data.length);
    var s1 := s.(list := Without(s.list, p), inodes := s.inodes - {p});
    SpaceSizes(s.disk, s.freeMap, Live(s));
    InodeIsLive(s, p);
    OldInode(s, extra + multiset{p}, p);
    RemoveInodeFromTable(s, extra, p);
    OwnSpace(s.disk, s.freeMap, Live(s), i.sector);
    LeavesUnowned(s, s1, i.sector);
    ReleaseKeeps(s1, extra, i.sector, 1, mem1);
    var s2 := Release(s1, i.sector, 1, mem1);
    UnownedFrame(s1, s2, i.data.start, n);
    ReleaseKeeps(s2, extra, i.data.start, n, mem2);
    var s3 := Release(s2, i.data.start, n, mem2);
    KeepsTransOne(s1.disk, s2.disk, s3.disk, Live(s1));
  }

  lemma LeavesUnowned(s: FS, s1: FS, x: nat)
    requires SpaceOk(s.disk, s.freeMap, Live(s)) && x in Live(s) && Live(s1) <= Live(s) && x !in Live(s1)
             && s1.disk == s.disk
    ensures Unowned(s1, x, 1)
    ensures Unowned(s1, InodeAt(s.disk, x).start, SectorsFor(InodeAt(s.disk, x).length))
  {
    hide SpaceOk, Live;
    OwnSpace(s.disk, s.freeMap, Live(s), x);
  }

  lemma KeepsTransOne(a: Disk, b: Disk, c: Disk, live: set<nat>)
    requires |a| == |b| == |c| && forall x :: x in live ==> x < |a|
    requires forall x :: x in live ==> b[x] == a[x]
    requires forall x :: x in live && x != FREE_MAP_SECTOR ==> KeepsFile(a, b, x) && KeepsFile(b, c, x)
    ensures forall x :: x in live && x != FREE_MAP_SECTOR ==> KeepsFile(a, c, x)
  {
    hide InExtent;
    forall x | x in live && x != FREE_MAP_SECTOR ensures KeepsFile(a, c, x) {
      SameInode(a, b, x);
    }
  }

  // ----- Creating an inode -----

  /** inode_create() in a sector that no live inode owns: the new inode has its own zeroed
      extent, and adding it to the live inodes keeps all extents apart. */
  lemma CreateInodeKeeps(s: FS, extra: multiset<nat>, x: nat, length: nat, memory: bool, mapMemory: bool)
    requires Inv(s, extra) && x < |s.freeMap| && s.freeMap[x] && Unowned(s, x, 1) && length < LENGTH_LIMIT
    ensures var (s', ok) := CreateInode(s, x, length, memory, mapMemory);
            && Inv(s', extra) && MapOnly(s, s') && Unowned(s', x, 1)
            && |s'.freeMap| == |s.freeMap| && s'.freeMap[x]
            && (!ok ==> s'.freeMap == s.freeMap)
            && (ok ==> CreatedAt(s, s', x, length))
            && (ok <==>
                && memory && MapGoesOut(|s.disk|, mapMemory)
                && B.FirstGroup(s.freeMap, 0, SectorsFor(length), false).Some?)
            && (ok ==> Persisted(s'))
  {
    hide SpaceOk, CountsOk, CachedOk, NamesOk, TableOk, RolesOk, RootEntries, Occupies, Live, Persisted, KeepsFile;
    hide InodeAt, Allocate, B.AllAre, Unowned, SectorsFor, EncodeInode, MapGoesOut, B.FirstGroup, ZeroSectors;
    SpaceSizes(s.disk, s.freeMap, Live(s));
    MapOnlyRefl(s, extra);
    if memory {
      var n := SectorsFor(length);
      AllocateKeeps(s, extra, n, mapMemory);
      var (s1, start) := Allocate(s, n, mapMemory);
      UnownedFrame(s, s1, x, 1);
      SpaceSizes(s1.disk, s1.freeMap, Live(s1));
      if start.Some? {
        OutsideGroup(s.freeMap, start.value, n, x);
        InitInode(s1, extra, x, start.value, length);
        var s2 := CreateInode(s, x, length, memory, mapMemory).0;
        UnownedFrame(s1, s2, x, 1);
        MapOnlyTrans(s, s1, s2);
      }
    }
  }

  lemma OutsideGroup(marks: seq<bool>, start: nat, n: nat, x: nat)
    requires x < |marks| && marks[x] && B.AllAre(marks, start, n, false)
    ensures !(start <= x < start + n) && start <= |marks|
    ensures B.AllAre(B.SetRange(marks, start, n, true), start, n, true)
  {
  }

  lemma MapOnlyTrans(a: FS, b: FS, c: FS)
    requires MapOnly(a, b) && MapOnly(b, c)
    ensures MapOnly(a, c)
  {
    hide Live, RootEntries, KeepsFile;
    KeepsTransOne(a.disk, b.disk, c.disk, Live(a));
  }

  /** The new inode: its length, its zeroed extent, and room of its own. */
  ghost predicate CreatedAt(s: FS, s': FS, x: nat, length: nat) {
    var d := InodeAt(s'.disk, x);
    && d.length == length && |s'.freeMap| == |s.freeMap|
    && B.AllAre(s.freeMap, d.start, SectorsFor(length), false)
    && s'.freeMap == B.SetRange(s.freeMap, d.start, SectorsFor(length), true)
    && SpaceOk(s'.disk, s'.freeMap, Live(s') + {x})
    && Contents(s'.disk, d) == Zeros(length)
  }

  /** Writing the new inode and zeroing its extent. */
  lemma InitInode(s: FS, extra: multiset<nat>, x: nat, start: nat, length: nat)
    requires Inv(s, extra) && x < |s.freeMap| && s.freeMap[x] && Unowned(s, x, 1) && length < LENGTH_LIMIT
    requires start < WORD_LIMIT && Unowned(s, start, SectorsFor(length))
             && B.AllAre(s.freeMap, start, SectorsFor(length), true)
    requires !(start <= x < start + SectorsFor(length)) && x < |s.disk|
    ensures var s' :=
            s.(disk := ZeroSectors(s.disk[x := EncodeInode(InodeDisk(start, length))], start, SectorsFor(length)));
            && Inv(s', extra) && MapOnly(s, s') && (Persisted(s) ==> Persisted(s'))
            && InodeAt(s'.disk, x) == InodeDisk(start, length)
            && SpaceOk(s'.disk, s'.freeMap, Live(s') + {x})
            && Contents(s'.disk, InodeAt(s'.disk, x)) == Zeros(length)
  {
    hide CountsOk, CachedOk, NamesOk, TableOk, RolesOk, RootEntries, Live, Persisted, EncodeInode, DecodeInode;
    hide SpaceOk, Occupies;
    var n := SectorsFor(length);
    SpaceSizes(s.disk, s.freeMap, Live(s));
    InodeRoundTrip(InodeDisk(start, length));
    var disk' := ZeroSectors(s.disk[x := EncodeInode(InodeDisk(start, length))], start, n);
    assert InodeAt(disk', x) == InodeDisk(start, length);
    forall y, b: nat | y in Live(s) && b < |disk'| && Occupies(s.disk, y, b) ensures disk'[b] == s.disk[b] {
      assert !(x <= b < x + 1) && !(start <= b < start + n);
    }
    UnownedWrite(s, disk', extra);
    var s' := s.(disk := disk');
    UnownedFrame(s, s', x, 1);
    UnownedFrame(s, s', start, n);
    forall b: nat | Occupies(disk', x, b)
      ensures b < |s.freeMap| && s.freeMap[b] && forall y :: y in Live(s') ==> !Occupies(disk', y, b)
    {
      OccupiedByNew(disk', x, start, length, b);
    }
    SpaceAdd(disk', s.freeMap, Live(s'), x);
    ZeroedContents(disk', InodeDisk(start, length));
  }

  lemma OccupiedByNew(disk: Disk, x: nat, start: nat, length: nat, b: nat)
    requires InodeAt(disk, x) == InodeDisk(start, length) && Occupies(disk, x, b)
    ensures x <= b < x + 1 || start <= b < start + SectorsFor(length)
  {
  }

  lemma ZeroedContents(disk: Disk, d: InodeDisk)
    requires Formed(disk) && Fits(disk, d)
    requires forall b :: 0 <= b < |disk| && InExtent(d, b) ==> disk[b] == Zeros(SECTOR_SIZE)
    ensures Contents(disk, d) == Zeros(d.length)
  {
    forall i | 0 <= i < d.length ensures Contents(disk, d)[i] == 0 {
      SectorOfByte(d, i);
    }
  }

  // ----- The directory -----

  lemma NamesAfterAdd(es: seq<D.Entry>, inodes: map<nat, Inode>, k: nat, x: nat, name: seq<Byte>)
    requires NamesOk(es, inodes) && k < |es| && x > ROOT_DIR_SECTOR && x !in Named(es) && x !in OpenSectors(inodes)
    ensures var es' := es[k := D.Entry(x, name, true)];
            && NamesOk(es', inodes) && x in Named(es') && Named(es') <= Named(es) + {x}
            && (!es[k].inUse ==> Named(es') == Named(es) + {x})
  {
    var es' := es[k := D.Entry(x, name, true)];
    assert es'[k].inUse && es'[k].sector == x;
    forall i | 0 <= i < |es| && es[i].inUse && i != k ensures es'[i].sector in Named(es') && es[i].sector in Named(es) {
      assert es'[i] == es[i];
    }
    assert Named(es') <= Named(es) + {x};
  }

  lemma NamesAfterErase(es: seq<D.Entry>, inodes: map<nat, Inode>, k: nat)
    requires NamesOk(es, inodes) && k < |es| && es[k].inUse
    ensures var es' := es[k := es[k].(inUse := false)];
            NamesOk(es', inodes) && Named(es') == Named(es) - {es[k].sector}
  {
    var es' := es[k := es[k].(inUse := false)];
    forall i | 0 <= i < |es| && es[i].inUse && i != k
      ensures es'[i].sector in Named(es') && es'[i].sector != es[k].sector
    {
      assert es'[i] == es[i];
    }
    assert Named(es') <= Named(es) - {es[k].sector};
  }

  /** The effect of a write to the directory's file on the invariant; `live` holds the live
      inodes and possibly a new one. */
  ghost predicate DirWritten(s: FS, s': FS, live: set<nat>) {
    && s' == s.(disk := s'.disk) && |s'.disk| == |s.disk|
    && (forall x :: x in live ==> x < |s.disk| && s'.disk[x] == s.disk[x])
    && (forall x :: x in live && x != ROOT_DIR_SECTOR ==> KeepsFile(s.disk, s'.disk, x))
    && (Persisted(s) ==> Persisted(s'))
  }

  lemma RootIsOpen(s: FS, extra: multiset<nat>, dir: nat)
    requires Inv(s, extra) && dir in s.inodes && s.inodes[dir].sector == ROOT_DIR_SECTOR
    ensures s.inodes[dir].data == InodeAt(s.disk, ROOT_DIR_SECTOR) && Formed(s.disk) && Fits(s.disk, s.inodes[dir].data)
    ensures EntriesOf(s.disk, s.inodes[dir].data) == RootEntries(s)
    ensures |RootEntries(s)| == s.inodes[dir].data.length / D.ENTRY_SIZE
  {
    hide SpaceOk, Live;
    SpaceSizes(s.disk, s.freeMap, Live(s));
    ReservedLive(s);
  }

  /** dir_add() of a new inode that has room of its own: it becomes live exactly when the
      entry is written. */
  lemma AddNameKeeps(s: FS, extra: multiset<nat>, dir: nat, name: D.Name, x: nat, env: Env)
    requires Inv(s, extra) && dir in s.inodes && s.inodes[dir].sector == ROOT_DIR_SECTOR && |env.stack| == D.ENTRY_SIZE
    requires SpaceOk(s.disk, s.freeMap, Live(s) + {x}) && Unowned(s, x, 1)
    ensures var (s', ok) := AddName(s, dir, name, x, env);
            && Inv(s', extra) && DirWritten(s, s', Live(s) + {x})
            && RootEntries(s') == D.Add(RootEntries(s), name, x, env.lim1, env.lim2, env.entryMem).0
            && ok == D.Add(RootEntries(s), name, x, env.lim1, env.lim2, env.entryMem).1
            && SpaceOk(s'.disk, s'.freeMap, Live(s) + {x})
            && (ok ==> x in Live(s') && Live(s') <= Live(s) + {x})
            && (ok && !D.SlotUsed(RootEntries(s), env.lim2) ==> Live(s') == Live(s) + {x})
            && (!ok ==> Live(s') == Live(s))
  {
    hide SpaceOk, Inv, Live, Unowned, InExtent, KeepsFile, Occupies, Persisted, D.Add, D.AddToDisk, Contents;
    hide D.Entries, InodeAt, Fits, Formed;
    var live := Live(s) + {x};
    SpaceSizes(s.disk, s.freeMap, live);
    RootIsOpen(s, extra, dir);
    NewIsNotLive(s, x);
    assert x < WORD_LIMIT by { SectorIsWord(s.disk, x); }
    var d := InodeAt(s.disk, ROOT_DIR_SECTOR);
    D.AddToDiskEntries(s.disk, d, name, x, env.lim1, env.lim2, env.entryMem, env.stack);
    var disk' := D.AddToDisk(s.disk, d, name, x, env.lim1, env.lim2, env.entryMem, env.stack);
    RootAfter(s, extra, disk', live);
    AddedNames(s, extra, name, x, env, disk');
    RootWrite(s, disk', extra, live);
  }

  lemma SectorIsWord(disk: Disk, x: nat)
    requires Formed(disk) && x < |disk|
    ensures x < WORD_LIMIT
  {
  }

  lemma NewIsNotLive(s: FS, x: nat)
    requires Unowned(s, x, 1)
    ensures x !in Live(s) && x > ROOT_DIR_SECTOR
  {
    hide Live;
    assert x <= x < x + 1 && Occupies(s.disk, x, x);
    ReservedLive(s);
  }

  /** After a write inside the directory's file its entries are those of the new bytes. */
  lemma RootAfter(s: FS, extra: multiset<nat>, disk': Disk, live: set<nat>)
    requires Inv(s, extra) && SpaceOk(s.disk, s.freeMap, live) && Live(s) <= live
             && OnlyExtent(s.disk, disk', InodeAt(s.disk, ROOT_DIR_SECTOR))
    ensures RootEntries(s.(disk := disk')) == EntriesOf(disk', InodeAt(s.disk, ROOT_DIR_SECTOR))
    ensures EntriesOf(disk', InodeAt(s.disk, ROOT_DIR_SECTOR))
            == D.Entries(Contents(disk', InodeAt(s.disk, ROOT_DIR_SECTOR)))
    ensures EntriesOf(s.disk, InodeAt(s.disk, ROOT_DIR_SECTOR))
            == D.Entries(Contents(s.disk, InodeAt(s.disk, ROOT_DIR_SECTOR)))
  {
    hide SpaceOk, Live, InExtent, InodeAt, Contents, D.Entries;
    ReservedLive(s);
    SpaceSizes(s.disk, s.freeMap, live);
    ExtentWriteFrame(s.disk, s.freeMap, live, ROOT_DIR_SECTOR, disk');
    SameInode(s.disk, disk', ROOT_DIR_SECTOR);
  }

  lemma AddedNames(s: FS, extra: multiset<nat>, name: D.Name, x: nat, env: Env, disk': Disk)
    requires Inv(s, extra) && x !in Live(s) && x > ROOT_DIR_SECTOR
    requires RootEntries(s.(disk := disk')) == D.Add(RootEntries(s), name, x, env.lim1, env.lim2, env.entryMem).0
    ensures var s', ok := s.(disk := disk'), D.Add(RootEntries(s), name, x, env.lim1, env.lim2, env.entryMem).1;
            && NamesOk(RootEntries(s'), s.inodes) && Live(s') <= Live(s) + {x}
            && (ok ==> x in Live(s')) && (!ok ==> Live(s') == Live(s))
            && (ok && !D.SlotUsed(RootEntries(s), env.lim2) ==> Live(s') == Live(s) + {x})
  {
    hide SpaceOk, TableOk, CountsOk, CachedOk, NamesOk, RolesOk, RootEntries, OpenSectors, Named, D.Find;
    var es := RootEntries(s);
    if D.Add(es, name, x, env.lim1, env.lim2, env.entryMem).1 {
      NamesAfterAdd(es, s.inodes, D.Slot(es, 0, env.lim2), x, name);
    }
  }

  /** Erasing the entry of an open inode: it stays live, but has no name any more. */
  lemma EraseKeeps(s: FS, extra: multiset<nat>, dir: nat, k: nat, p: nat, memory: bool)
    requires Inv(s, extra) && dir in s.inodes && s.inodes[dir].sector == ROOT_DIR_SECTOR && p in s.inodes
    requires k < |RootEntries(s)| && RootEntries(s)[k].inUse && s.inodes[p].sector == RootEntries(s)[k].sector
    ensures var s', es := EraseEntry(s, dir, k, memory), RootEntries(s);
            && Inv(s', extra) && DirWritten(s, s', Live(s)) && Live(s') == Live(s)
            && RootEntries(s') == (if memory then es[k := es[k].(inUse := false)] else es)
            && (memory ==> s.inodes[p].sector !in Named(RootEntries(s')) && s.inodes[p].sector > ROOT_DIR_SECTOR)
  {
    hide SpaceOk, Inv, Live, Unowned, InExtent, KeepsFile, Occupies, Persisted, D.EraseOnDisk, Contents, D.Entries;
    hide InodeAt, Fits, Formed, Named;
    RootIsOpen(s, extra, dir);
    InvTable(s, extra);
    SpaceSizes(s.disk, s.freeMap, Live(s));
    var d := InodeAt(s.disk, ROOT_DIR_SECTOR);
    var es := RootEntries(s);
    D.EraseOnDiskEntries(s.disk, d, k, memory);
    var disk' := D.EraseOnDisk(s.disk, d, k, memory);
    RootAfter(s, extra, disk', Live(s));
    NamesAfterErase(es, s.inodes, k);
    assert Live(s.(disk := disk')) == Live(s) by { LiveAfterErase(s, s.(disk := disk'), k, p); }
    RootWrite(s, disk', extra, Live(s));
  }

  lemma LiveAfterErase(s: FS, s': FS, k: nat, p: nat)
    requires k < |RootEntries(s)| && p in s.inodes && s.inodes[p].sector == RootEntries(s)[k].sector
             && s'.inodes == s.inodes
    requires Named(RootEntries(s)) - {RootEntries(s)[k].sector} <= Named(RootEntries(s')) <= Named(RootEntries(s))
    ensures Live(s') == Live(s)
  {
    hide RootEntries, Named;
  }

  lemma RemoveInodeKeeps(s: FS, extra: multiset<nat>, p: nat)
    requires Inv(s, extra) && p in s.inodes && s.inodes[p].sector > ROOT_DIR_SECTOR
             && s.inodes[p].sector !in Named(RootEntries(s))
    ensures Inv(RemoveInode(s, p), extra) && Live(RemoveInode(s, p)) == Live(s) && TableOnly(s, RemoveInode(s, p))
  {
    hide SpaceOk, RootEntries, Named, CachedOk, RolesOk, TableOk, CountsOk, OpenSectors, Handles;
    InodeCounts(s, extra, p);
    InodeChange(s, p, s.inodes[p].(removed := true), extra, extra);
  }
}
