/** Whole operations of the file system and whole runs of them. */
module FileRuns {

  import opened Lists
  import opened Blocks
  import opened InodeData
  import opened FileSystem
  import opened FileInvariant
  import opened FileOps

  /** The device, the free map and the set of live inodes are the same. */
  ghost predicate SameSpace(s: FS, s': FS) {
    s'.disk == s.disk && s'.freeMap == s.freeMap && Live(s') == Live(s)
  }

  /** What a step may do to the files: live files other than `targets` keep their inode and
      bytes, and a sector is freed only if it belonged to an inode that is live no more. */
  ghost predicate Effect(s: FS, s': FS, targets: set<nat>) {
    && |s'.disk| == |s.disk| && |s'.freeMap| == |s.freeMap|
    && (forall x :: x in Live(s) && x in Live(s') && x > ROOT_DIR_SECTOR && x !in targets ==>
        KeepsFile(s.disk, s'.disk, x))
    && (forall b: nat :: b < |s.freeMap| && s.freeMap[b] && !s'.freeMap[b] ==>
          exists x :: x in Live(s) && x !in Live(s') && Occupies(s.disk, x, b))
  }

  /** An inode that stops being live has all its sectors freed in the same step. */
  ghost predicate Reclaims(s: FS, s': FS) {
    forall x, b: nat :: x in Live(s) && x !in Live(s') && Occupies(s.disk, x, b) && b < |s'.freeMap| ==> !s'.freeMap[b]
  }

  /** Every open inode is reserved, named or removed. */
  ghost predicate NamedOrRemoved(s: FS) {
    forall p :: p in s.inodes ==>
        s.inodes[p].removed || s.inodes[p].sector <= ROOT_DIR_SECTOR || s.inodes[p].sector in Named(RootEntries(s))
  }

  /** No inode that was not removed before is removed now. */
  ghost predicate RemovedBefore(s: FS, s': FS) {
    forall q :: q in s'.inodes && s'.inodes[q].removed ==>
      q in s.inodes && s.inodes[q].removed && s.inodes[q].sector == s'.inodes[q].sector
  }

  lemma EffectRefl(s: FS)
    ensures Effect(s, s, {}) && Reclaims(s, s)
  {
    SameFiles(s.disk, Live(s));
  }

  /** Steps before and after that leave all space alone do not matter. */
  lemma EffectAround(a: FS, b: FS, c: FS, d: FS, targets: set<nat>)
    requires SameSpace(a, b) && SameSpace(c, d)
    requires Effect(b, c, targets)
    ensures Effect(a, d, targets)
    ensures Reclaims(b, c) ==> Reclaims(a, d)
  {
    hide Live, KeepsFile, Occupies;
    forall x: nat | x < |a.freeMap| && a.freeMap[x] && !d.freeMap[x]
      ensures exists y :: y in Live(a) && y !in Live(d) && Occupies(a.disk, y, x)
    {
      var y :| y in Live(b) && y !in Live(c) && Occupies(b.disk, y, x);
    }
  }

  lemma NamedIsLive(s: FS, x: nat)
    requires x <= ROOT_DIR_SECTOR || x in Named(RootEntries(s))
    ensures x in Live(s)
  {
  }

  /** Closing a reference to an inode that is reserved or named frees nothing. */
  lemma CloseNamed(s: FS, extra: multiset<nat>, p: nat, mem1: bool, mem2: bool)
    requires Inv(s, extra + multiset{p})
    requires p in s.inodes ==> s.inodes[p].sector <= ROOT_DIR_SECTOR || s.inodes[p].sector in Named(RootEntries(s))
    ensures var s' := CloseInode(s, p, mem1, mem2);
            && p in s.inodes && Inv(s', extra) && SameSpace(s, s') && s'.files == s.files
               && RootEntries(s') == RootEntries(s)
            && (Persisted(s) ==> Persisted(s')) && (NamedOrRemoved(s) ==> NamedOrRemoved(s'))
            && (forall q :: q in s'.inodes ==>
                q in s.inodes && s'.inodes[q].sector == s.inodes[q].sector
                  && s'.inodes[q].removed == s.inodes[q].removed)
            && (forall q :: q in s.inodes && q != p ==> q in s'.inodes)
            && (forall q :: q in extra ==> q in s'.inodes)
            && OpenSectors(s.inodes) - {s.inodes[p].sector} <= OpenSectors(s'.inodes) <= OpenSectors(s.inodes)
  {
    hide SpaceOk, Live, Named, RootEntries, CloseInode, Persisted, KeepsFile, TableOk, CachedOk, RolesOk, Handles;
    hide Deniers, Occupies, B.AllAre;
    CloseInodeKeeps(s, extra, p, mem1, mem2);
    RemovedUnnamed(s, p);
    var s' := CloseInode(s, p, mem1, mem2);
    NamedIsLive(s', s.inodes[p].sector);
    assert Live(s') == Live(s);
    SamePersisted(s, s');
  }

  /** dir_open_root(). */
  lemma OpenRootKeeps(s: FS, env: Env)
    requires Inv(s, multiset{}) && FreshEnv(s, env)
    ensures var (s', dir) := OpenRoot(s, env);
            && SameSpace(s, s') && s'.files == s.files && RootEntries(s') == RootEntries(s)
            && (dir.None? ==> Inv(s', multiset{}))
            && (dir.Some? ==>
                Inv(s', multiset{dir.value}) && dir.value in s'.inodes
                  && s'.inodes[dir.value].sector == ROOT_DIR_SECTOR)
            && (env.ptr.Some? ==> env.ptr.value !in s'.inodes)
            && OpenSectors(s'.inodes) - {ROOT_DIR_SECTOR} == OpenSectors(s.inodes) - {ROOT_DIR_SECTOR}
            && RemovedBefore(s, s')
            && (Persisted(s) ==> Persisted(s')) && (NamedOrRemoved(s) ==> NamedOrRemoved(s'))
  {
    hide Inv, Live, RootEntries, Named, CloseInode, OpenInode, Persisted, OpenSectors;
    ReservedLive(s);
    OpenInodeKeeps(s, multiset{}, ROOT_DIR_SECTOR, env.rootPtr);
    OpenInodeSectors(s, multiset{}, ROOT_DIR_SECTOR, env.rootPtr);
    var (s1, p) := OpenInode(s, ROOT_DIR_SECTOR, env.rootPtr);
    SamePersisted(s, s1);
    OpenKeepsNamed(s, s1, env.rootPtr, ROOT_DIR_SECTOR, p);
    if p.Some? {
      assert multiset{} + multiset{p.value} == multiset{p.value};
      if !env.dirMem {
        CloseNamed(s1, multiset{}, p.value, env.map1, env.map2);
      }
    }
  }

  lemma OpenKeepsNamed(s: FS, s': FS, mem: Option<nat>, x: nat, r: Option<nat>)
    requires RootEntries(s') == RootEntries(s) && (x <= ROOT_DIR_SECTOR || x in Named(RootEntries(s)))
    requires (s', r) == OpenInode(s, x, mem)
    ensures NamedOrRemoved(s) ==> NamedOrRemoved(s')
  {
    hide RootEntries, Named;
  }

  // ----- filesys_create() -----

  ghost predicate Spares(disk: Disk, disk': Disk, live: set<nat>) {
    && |disk'| == |disk|
    && (forall x :: x in live ==> x < |disk| && disk'[x] == disk[x])
    && (forall x :: x in live && x > ROOT_DIR_SECTOR ==> KeepsFile(disk, disk', x))
  }

  lemma SparesTrans(a: Disk, b: Disk, c: Disk, live: set<nat>)
    requires Spares(a, b, live) && Spares(b, c, live)
    ensures Spares(a, c, live)
  {
    hide InExtent;
    forall x | x in live && x > ROOT_DIR_SECTOR ensures KeepsFile(a, c, x) {
      SameInode(a, b, x);
    }
  }

  /** dir_open_root() succeeds. */
  ghost predicate RootOpens(s: FS, env: Env) {
    env.dirMem && (env.rootPtr.Some? || ROOT_DIR_SECTOR in OpenSectors(s.inodes))
  }

  lemma RootOpensIff(s: FS, env: Env)
    requires Inv(s, multiset{}) && FreshEnv(s, env)
    ensures OpenRoot(s, env).1.Some? <==> RootOpens(s, env)
  {
    hide Inv, Live, CloseInode, RootEntries, OpenInode, OpenSectors;
    ReservedLive(s);
    OpenInodeKeeps(s, multiset{}, ROOT_DIR_SECTOR, env.rootPtr);
    var (s1, p) := OpenInode(s, ROOT_DIR_SECTOR, env.rootPtr);
    assert p.None? <==> env.rootPtr.None? && ROOT_DIR_SECTOR !in OpenSectors(s.inodes);
    assert OpenRoot(s, env).1.Some? <==> p.Some? && env.dirMem;
  }

  /** There is room for an inode and then for `size` bytes. */
  ghost predicate RoomFor(marks: seq<bool>, size: nat) {
    var x := B.FirstGroup(marks, 0, 1, false);
    x.Some? && B.FirstGroup(B.SetRange(marks, x.value, 1, true), 0, SectorsFor(size), false).Some?
  }

  /** The inode and its data sectors get allocated. */
  ghost predicate MakesInode(s: FS, size: nat, env: Env) {
    MapGoesOut(|s.disk|, env.map1) && env.inodeMem && MapGoesOut(|s.disk|, env.map2) && RoomFor(s.freeMap, size)
  }

  /** filesys_create() succeeds: the root opens, an inode is made, and dir_add() finds the name
      new and a slot, as far as its searches get. */
  ghost predicate Creates(s: FS, name: D.Name, size: nat, env: Env) {
    RootOpens(s, env) && MakesInode(s, size, env) && D.CanAdd(RootEntries(s), name, env.lim1, env.lim2, env.entryMem)
  }

  lemma CreateInSucceeds(s: FS, dir: nat, name: D.Name, size: nat, env: Env)
    requires Inv(s, multiset{dir}) && dir in s.inodes && s.inodes[dir].sector == ROOT_DIR_SECTOR
    requires |env.stack| == D.ENTRY_SIZE && size < LENGTH_LIMIT
    ensures CreateIn(s, dir, name, size, env).1 <==>
            MakesInode(s, size, env) && D.CanAdd(RootEntries(s), name, env.lim1, env.lim2, env.entryMem)
  {
    hide MapGoesOut, SpaceOk, Inv, Live, RootEntries, Persisted, KeepsFile, Allocate, Release, CreateInode, AddName;
    hide Unowned, D.Add, D.CanAdd, InodeAt, Occupies, Contents, Formed, Fits, B.AllAre, B.FirstGroup;
    AllocateKeeps(s, multiset{dir}, 1, env.map1);
    var (s1, r) := Allocate(s, 1, env.map1);
    if r.Some? {
      var x := r.value;
      CreateInodeKeeps(s1, multiset{dir}, x, size, env.inodeMem, env.map2);
      var (s2, made) := CreateInode(s1, x, size, env.inodeMem, env.map2);
      assert made <==> MakesInode(s, size, env);
      if made {
        CreatedHasRoom(s1, s2, x, size);
        AddNameKeeps(s2, multiset{dir}, dir, name, x, env);
        D.CanAddIff(RootEntries(s), name, x, env.lim1, env.lim2, env.entryMem);
      }
    }
  }

  /** filesys_create() succeeds under exactly this condition on the state and the memory. */
  lemma CreateSucceedsIff(s: FS, name: D.Name, size: nat, env: Env)
    requires Inv(s, multiset{}) && FreshEnv(s, env) && size < LENGTH_LIMIT
    ensures Create(s, name, size, env).1 <==> Creates(s, name, size, env)
  {
    hide MapGoesOut, Inv, Live, RootEntries, CloseInode, OpenRoot, CreateIn, RoomFor, RootOpens, D.CanAdd;
    hide RemovedBefore;
    OpenRootKeeps(s, env);
    RootOpensIff(s, env);
    var (s1, dir) := OpenRoot(s, env);
    if dir.Some? {
      CreateInSucceeds(s1, dir.value, name, size, env);
    }
  }

  /** The free map after an inode and its `size` bytes were allocated. */
  ghost function Taken(marks: seq<bool>, size: nat): seq<bool>
    requires RoomFor(marks, size)
  {
    var x := B.FirstGroup(marks, 0, 1, false).value;
    var map1 := B.SetRange(marks, x, 1, true);
    B.SetRange(map1, B.FirstGroup(map1, 0, SectorsFor(size), false).value, SectorsFor(size), true)
  }

  lemma CreateInTakes(s: FS, dir: nat, name: D.Name, size: nat, env: Env)
    requires Inv(s, multiset{dir}) && dir in s.inodes && s.inodes[dir].sector == ROOT_DIR_SECTOR
    requires |env.stack| == D.ENTRY_SIZE && size < LENGTH_LIMIT && CreateIn(s, dir, name, size, env).1
    ensures RoomFor(s.freeMap, size) && CreateIn(s, dir, name, size, env).0.freeMap == Taken(s.freeMap, size)
  {
    hide MapGoesOut, Inv, Live, RootEntries, Persisted, KeepsFile, Allocate, Release, Unowned, D.Add, D.AddToDisk;
    hide InodeAt, Occupies, Contents, Formed, Fits, B.AllAre, B.FirstGroup, ZeroSectors, EncodeInode;
    CreateInSucceeds(s, dir, name, size, env);
    AllocateKeeps(s, multiset{dir}, 1, env.map1);
    var (s1, r) := Allocate(s, 1, env.map1);
    AllocateKeeps(s1, multiset{dir}, SectorsFor(size), env.map2);
  }

  /** A successful filesys_create() marks the first free sector and the first sufficient group
      behind that. */
  lemma CreateTakes(s: FS, name: D.Name, size: nat, env: Env)
    requires Inv(s, multiset{}) && FreshEnv(s, env) && size < LENGTH_LIMIT && Create(s, name, size, env).1
    ensures RoomFor(s.freeMap, size) && Create(s, name, size, env).0.freeMap == Taken(s.freeMap, size)
  {
    hide MapGoesOut, Inv, Live, RootEntries, Named, CloseInode, OpenRoot, CreateIn, Persisted, NamedOrRemoved;
    hide RoomFor, Spares, Grows, NewFile, RemovedBefore, OpenSectors;
    OpenRootKeeps(s, env);
    var (s1, dir) := OpenRoot(s, env);
    CreateInTakes(s1, dir.value, name, size, env);
    CreateInKeeps(s1, dir.value, name, size, env);
    assert multiset{} + multiset{dir.value} == multiset{dir.value};
    CloseNamed(CreateIn(s1, dir.value, name, size, env).0, multiset{}, dir.value, env.map1, env.map2);
  }

  /** The file that a successful create made: new, named, and all zeros. */
  ghost predicate NewFile(s: FS, s': FS, name: D.Name, size: nat, env: Env, x: nat) {
    && x !in Live(s) && x in Live(s') && Live(s') <= Live(s) + {x}
    && (!D.SlotUsed(RootEntries(s), env.lim2) ==> Live(s') == Live(s) + {x})
    && D.Add(RootEntries(s), name, x, env.lim1, env.lim2, env.entryMem).1
    && RootEntries(s') == D.Add(RootEntries(s), name, x, env.lim1, env.lim2, env.entryMem).0
    && Formed(s'.disk) && Fits(s'.disk, InodeAt(s'.disk, x))
    && Contents(s'.disk, InodeAt(s'.disk, x)) == Zeros(size)
  }

  /** The marks a create may leave: those of its file, or, when it fails after the inode was
      written, those of the data sectors. */
  ghost predicate Grows(s: FS, s': FS) {
    |s'.freeMap| == |s.freeMap| && forall b :: 0 <= b < |s.freeMap| && s.freeMap[b] ==> s'.freeMap[b]
  }

  lemma CreateInKeeps(s: FS, dir: nat, name: D.Name, size: nat, env: Env)
    requires Inv(s, multiset{dir}) && dir in s.inodes && s.inodes[dir].sector == ROOT_DIR_SECTOR
    requires |env.stack| == D.ENTRY_SIZE && size < LENGTH_LIMIT
    ensures var (s', ok) := CreateIn(s, dir, name, size, env);
            && Inv(s', multiset{dir}) && s'.inodes == s.inodes && s'.files == s.files
            && Spares(s.disk, s'.disk, Live(s)) && Grows(s, s')
            && (!ok ==> Live(s') == Live(s) && RootEntries(s') == RootEntries(s))
            && (ok ==> exists x :: NewFile(s, s', name, size, env, x))
            && (ok ==> Persisted(s'))
            && (MapGoesOut(|s.disk|, env.map1) && MapGoesOut(|s.disk|, env.map3) && Persisted(s) ==> Persisted(s'))
  {
    hide MapGoesOut, SpaceOk, Inv, Live, RootEntries, Persisted, KeepsFile, Allocate, Release, CreateInode, AddName;
    hide Unowned, CreatedAt, D.Add, InodeAt, Occupies, Contents, Formed, Fits, B.AllAre, B.FirstGroup;
    MapOnlyRefl(s, multiset{dir});
    AllocateKeeps(s, multiset{dir}, 1, env.map1);
    var (s1, r) := Allocate(s, 1, env.map1);
    if r.Some? {
      var x := r.value;
      NewIsNotLive(s1, x);
      CreateInodeKeeps(s1, multiset{dir}, x, size, env.inodeMem, env.map2);
      var (s2, made) := CreateInode(s1, x, size, env.inodeMem, env.map2);
      MapOnlyTrans(s, s1, s2);
      CreateMarks(s, s1, s2, x, size, made);
      if !made {
        ReleaseKeeps(s2, multiset{dir}, x, 1, env.map3);
        MapOnlyTrans(s, s2, Release(s2, x, 1, env.map3));
      } else {
        CreatedHasRoom(s1, s2, x, size);
        AddNameKeeps(s2, multiset{dir}, dir, name, x, env);
        var (s3, added) := AddName(s2, dir, name, x, env);
        DirWrittenSpares(s2, s3, multiset{dir}, x, size);
        SparesTrans(s.disk, s2.disk, s3.disk, Live(s));
        if added {
          assert NewFile(s, s3, name, size, env, x);
        } else {
          StillUnowned(s2, s3, x);
          AddFails(s2, name, x, env);
          ReleaseKeeps(s3, multiset{dir}, x, 1, env.map3);
          SparesTrans(s.disk, s3.disk, Release(s3, x, 1, env.map3).disk, Live(s));
        }
      }
    }
  }

  /** Whenever a failing create gives its inode's sector back, the sector is marked, as the
      ASSERT of free_map_release() demands. */
  lemma CreateReleasesMarked(s: FS, dir: nat, name: D.Name, size: nat, env: Env)
    requires Inv(s, multiset{dir}) && dir in s.inodes && s.inodes[dir].sector == ROOT_DIR_SECTOR
    requires |env.stack| == D.ENTRY_SIZE && size < LENGTH_LIMIT && Allocate(s, 1, env.map1).1.Some?
    ensures var (s1, x) := Allocate(s, 1, env.map1);
            var (s2, made) := CreateInode(s1, x.value, size, env.inodeMem, env.map2);
            var s3 := if made then AddName(s2, dir, name, x.value, env).0 else s2;
            B.AllAre(s3.freeMap, x.value, 1, true)
  {
    hide SpaceOk, Inv, Live, RootEntries, Persisted, KeepsFile, Allocate, CreateInode, AddName, Unowned, CreatedAt;
    hide D.Add, InodeAt, Occupies, Contents;
    AllocateKeeps(s, multiset{dir}, 1, env.map1);
    var (s1, x) := Allocate(s, 1, env.map1);
    CreateInodeKeeps(s1, multiset{dir}, x.value, size, env.inodeMem, env.map2);
    var (s2, made) := CreateInode(s1, x.value, size, env.inodeMem, env.map2);
    if made {
      CreatedHasRoom(s1, s2, x.value, size);
      AddNameKeeps(s2, multiset{dir}, dir, name, x.value, env);
    }
  }

  lemma CreateMarks(s: FS, s1: FS, s2: FS, x: nat, size: nat, made: bool)
    requires x < |s.freeMap| && B.AllAre(s.freeMap, x, 1, false) && s1.freeMap == B.SetRange(s.freeMap, x, 1, true)
    requires if made then CreatedAt(s1, s2, x, size) else s2.freeMap == s1.freeMap
    ensures Grows(s, s2) && |s2.freeMap| == |s.freeMap|
    ensures Grows(s, s2.(freeMap := B.SetRange(s2.freeMap, x, 1, false)))
  {
    hide InodeAt, SpaceOk, Live, Contents;
  }

  lemma CreatedHasRoom(s1: FS, s2: FS, x: nat, size: nat)
    requires CreatedAt(s1, s2, x, size)
    ensures SpaceOk(s2.disk, s2.freeMap, Live(s2) + {x})
    ensures Formed(s2.disk) && x < |s2.disk| && Fits(s2.disk, InodeAt(s2.disk, x))
            && Contents(s2.disk, InodeAt(s2.disk, x)) == Zeros(size)
  {
    hide Live;
    SpaceSizes(s2.disk, s2.freeMap, Live(s2) + {x});
  }

  lemma DirWrittenSpares(s2: FS, s3: FS, extra: multiset<nat>, x: nat, size: nat)
    requires Inv(s3, extra) && DirWritten(s2, s3, Live(s2) + {x}) && x > ROOT_DIR_SECTOR
    requires Formed(s2.disk) && x < |s2.disk| && Fits(s2.disk, InodeAt(s2.disk, x))
             && Contents(s2.disk, InodeAt(s2.disk, x)) == Zeros(size)
    ensures Spares(s2.disk, s3.disk, Live(s2))
    ensures Formed(s3.disk) && Fits(s3.disk, InodeAt(s3.disk, x))
            && Contents(s3.disk, InodeAt(s3.disk, x)) == Zeros(size)
  {
    hide Live, Contents, InodeAt, Persisted;
    SpaceSizes(s3.disk, s3.freeMap, Live(s3));
    KeptFile(s2.disk, s3.disk, x);
  }

  lemma StillUnowned(s: FS, s': FS, x: nat)
    requires Unowned(s, x, 1) && Live(s') == Live(s) && DirWritten(s, s', Live(s) + {x})
    ensures Unowned(s', x, 1)
  {
    hide Live, Persisted;
    UnownedFrame(s, s', x, 1);
  }

  lemma AddFails(s: FS, name: D.Name, x: nat, env: Env)
    ensures !D.Add(RootEntries(s), name, x, env.lim1, env.lim2, env.entryMem).1 ==>
            D.Add(RootEntries(s), name, x, env.lim1, env.lim2, env.entryMem).0 == RootEntries(s)
  {
  }

  lemma RootSize(s: FS, extra: multiset<nat>)
    requires Inv(s, extra)
    ensures |RootEntries(s)| == ROOT_ENTRIES
  {
    hide SpaceOk, Live;
    ReservedLive(s);
    SpaceSizes(s.disk, s.freeMap, Live(s));
  }

  lemma AddKeepsNames(es: seq<D.Entry>, name: D.Name, x: nat, env: Env)
    requires !D.SlotUsed(es, env.lim2)
    ensures Named(es) <= Named(D.Add(es, name, x, env.lim1, env.lim2, env.entryMem).0)
  {
    var es' := D.Add(es, name, x, env.lim1, env.lim2, env.entryMem).0;
    forall k | 0 <= k < |es| && es[k].inUse ensures es[k].sector in Named(es') {
      assert es'[k] == es[k];
    }
  }

  lemma SparesEffect(s: FS, s': FS)
    requires Spares(s.disk, s'.disk, Live(s)) && Grows(s, s')
    ensures Effect(s, s', {})
  {
    hide Live, KeepsFile, Occupies;
  }

  /** filesys_create(): on success a new zeroed file under the name, on failure the same live
      files as before; no other file changes and nothing is freed. */
  lemma CreateKeeps(s: FS, name: D.Name, size: nat, env: Env)
    requires Inv(s, multiset{}) && FreshEnv(s, env) && size < LENGTH_LIMIT
    ensures var (s', ok) := Create(s, name, size, env);
            && Inv(s', multiset{}) && Effect(s, s', {}) && Grows(s, s') && s'.files == s.files
            && (ok <==> Creates(s, name, size, env))
            && (ok ==> exists x :: NewFile(s, s', name, size, env, x))
            && (!ok ==> Live(s') == Live(s) && RootEntries(s') == RootEntries(s))
            && (ok ==> Persisted(s'))
            && (MapGoesOut(|s.disk|, env.map1) && MapGoesOut(|s.disk|, env.map3) && Persisted(s) ==> Persisted(s'))
            && (!(ok && D.SlotUsed(RootEntries(s), env.lim2)) && NamedOrRemoved(s) ==>
                NamedOrRemoved(s') && Reclaims(s, s'))
            && RemovedBefore(s, s')
  {
    hide MapGoesOut, Inv, Live, RootEntries, Named, CloseInode, OpenRoot, CreateIn, Persisted, Effect, Reclaims;
    hide NamedOrRemoved, Spares, NewFile, D.SlotUsed, Creates;
    CreateSucceedsIff(s, name, size, env);
    OpenRootKeeps(s, env);
    var (s1, dir) := OpenRoot(s, env);
    if dir.None? {
      EffectRefl(s1);
      EffectAround(s, s1, s1, s1, {});
    } else {
      CreateInKeeps(s1, dir.value, name, size, env);
      var (s2, ok) := CreateIn(s1, dir.value, name, size, env);
      SparesEffect(s1, s2);
      assert multiset{} + multiset{dir.value} == multiset{dir.value};
      CloseNamed(s2, multiset{}, dir.value, env.map1, env.map2);
      var s3 := CloseInode(s2, dir.value, env.map1, env.map2);
      EffectAround(s, s1, s2, s3, {});
      CreateKeepsNames(s1, s2, name, size, env, ok);
      if ok {
        var x :| NewFile(s1, s2, name, size, env, x);
        NewFileAround(s, s1, s2, s3, name, size, env, x);
      }
    }
  }

  lemma NewFileAround(a: FS, b: FS, c: FS, d: FS, name: D.Name, size: nat, env: Env, x: nat)
    requires SameSpace(a, b) && SameSpace(c, d) && RootEntries(b) == RootEntries(a) && RootEntries(d) == RootEntries(c)
    requires NewFile(b, c, name, size, env, x)
    ensures NewFile(a, d, name, size, env, x)
  {
    hide Live, RootEntries, D.Add, D.SlotUsed, InodeAt, Contents, Fits, Formed;
  }

  /** A create that takes no live entry's slot leaves every file its name. */
  lemma CreateKeepsNames(s: FS, s': FS, name: D.Name, size: nat, env: Env, ok: bool)
    requires s'.inodes == s.inodes
    requires if ok then exists x :: NewFile(s, s', name, size, env, x)
             else Live(s') == Live(s) && RootEntries(s') == RootEntries(s)
    ensures !(ok && D.SlotUsed(RootEntries(s), env.lim2)) ==>
            (NamedOrRemoved(s) ==> NamedOrRemoved(s')) && Reclaims(s, s')
  {
    hide Live, RootEntries, NamedOrRemoved, Reclaims, Contents, InodeAt, Fits, Formed, D.Add;
    if ok && !D.SlotUsed(RootEntries(s), env.lim2) {
      var x :| NewFile(s, s', name, size, env, x);
      AddKeepsNames(RootEntries(s), name, x, env);
    }
    if !(ok && D.SlotUsed(RootEntries(s), env.lim2)) {
      MoreNames(s, s');
      SubsetReclaims(s, s');
    }
  }

  lemma MoreNames(s: FS, s': FS)
    requires s'.inodes == s.inodes && Named(RootEntries(s)) <= Named(RootEntries(s'))
    ensures NamedOrRemoved(s) ==> NamedOrRemoved(s')
  {
    hide RootEntries, Named;
  }

  lemma SubsetReclaims(s: FS, s': FS)
    requires Live(s) <= Live(s')
    ensures Reclaims(s, s')
  {
    hide Live;
  }

  // ----- Handles -----

  lemma HandlesAdd(files: map<nat, File>, f: nat, file: File, p: nat)
    requires f !in files
    ensures |Handles(files[f := file], p)| == |Handles(files, p)| + if file.inode == p then 1 else 0
  {
    var files' := files[f := file];
    assert forall g :: g in files ==> files'[g] == files[g];
    if file.inode == p {
      assert Handles(files', p) == Handles(files, p) + {f};
    } else {
      assert Handles(files', p) == Handles(files, p);
    }
  }

  lemma DeniersAdd(files: map<nat, File>, f: nat, file: File, p: nat)
    requires f !in files
    ensures |Deniers(files[f := file], p)| == |Deniers(files, p)| + if file.inode == p && file.deny then 1 else 0
  {
    var files' := files[f := file];
    assert forall g :: g in files ==> files'[g] == files[g];
    if file.inode == p && file.deny {
      assert Deniers(files', p) == Deniers(files, p) + {f};
    } else {
      assert Deniers(files', p) == Deniers(files, p);
    }
  }

  /** Files come and go: the counters move from the operation's references to the handle. */
  lemma FileAdded(s: FS, extra: multiset<nat>, p: nat, f: nat)
    requires Inv(s, extra + multiset{p}) && f !in s.files && p in s.inodes && s.inodes[p].sector > ROOT_DIR_SECTOR
    ensures var s' := s.(files := s.files[f := File(p, 0, false)]);
            Inv(s', extra) && SameSpace(s, s') && RootEntries(s') == RootEntries(s)
  {
    hide SpaceOk, TableOk, CachedOk, NamesOk, RootEntries, Named, InodeAt, MapSize, Handles, Deniers;
    var s' := s.(files := s.files[f := File(p, 0, false)]);
    SameDisk(s, s');
    OneMore(extra, p);
    forall q | q in s.inodes
      ensures s.inodes[q].openCnt == |Handles(s'.files, q)| + extra[q] && s.inodes[q].denyCnt == |Deniers(s'.files, q)|
    {
      HandlesAdd(s.files, f, File(p, 0, false), q);
      DeniersAdd(s.files, f, File(p, 0, false), q);
    }
  }

  lemma FileRemoved(s: FS, extra: multiset<nat>, f: nat)
    requires Inv(s, extra) && f in s.files && f != FREE_MAP_FILE && !s.files[f].deny
    ensures var s' := s.(files := s.files - {f});
            Inv(s', extra + multiset{s.files[f].inode}) && SameSpace(s, s') && RootEntries(s') == RootEntries(s)
  {
    hide SpaceOk, TableOk, CachedOk, NamesOk, RootEntries, Named, InodeAt, MapSize, Handles, Deniers;
    var s' := s.(files := s.files - {f});
    var p := s.files[f].inode;
    SameDisk(s, s');
    OneMore(extra, p);
    assert s.files == s'.files[f := s.files[f]];
    forall q | q in s.inodes
      ensures s.inodes[q].openCnt == |Handles(s'.files, q)| + (extra + multiset{p})[q]
              && s.inodes[q].denyCnt == |Deniers(s'.files, q)|
    {
      HandlesAdd(s'.files, f, s.files[f], q);
      DeniersAdd(s'.files, f, s.files[f], q);
    }
  }

  // ----- Closing -----

  /** inode_close() frees exactly the sectors of a removed inode at its last close. */
  lemma CloseEffect(s: FS, extra: multiset<nat>, p: nat, s': FS)
    requires Inv(s, extra) && p in s.inodes && ClosedInode(s, p, s')
    ensures Effect(s, s', {})
    ensures NamedOrRemoved(s) ==> NamedOrRemoved(s') && Reclaims(s, s')
  {
    hide SpaceOk, TableOk, CountsOk, NamesOk, RolesOk, Live, RootEntries, Named, KeepsFile, Fits, Formed, InodeAt;
    var i := s.inodes[p];
    InodeIsLive(s, p);
    if i.openCnt == 1 && i.removed {
      forall b: nat | b < |s.freeMap| && s.freeMap[b] && !s'.freeMap[b]
        ensures exists x :: x in Live(s) && x !in Live(s') && Occupies(s.disk, x, b)
      {
        assert Occupies(s.disk, i.sector, b);
      }
    } else if NamedOrRemoved(s) {
      StaysLive(s, s', p);
    }
  }

  lemma StaysLive(s: FS, s': FS, p: nat)
    requires p in s.inodes && RootEntries(s') == RootEntries(s) && NamedOrRemoved(s)
    requires s'.inodes
             == (if s.inodes[p].openCnt == 1 then s.inodes - {p}
                 else s.inodes[p := s.inodes[p].(openCnt := s.inodes[p].openCnt - 1)])
    requires !(s.inodes[p].openCnt == 1 && s.inodes[p].removed)
    ensures s.inodes[p].sector in Live(s') && NamedOrRemoved(s')
  {
    hide RootEntries, Named;
    if s.inodes[p].openCnt == 1 {
      NamedIsLive(s', s.inodes[p].sector);
    } else {
      InodeIsLive(s', p);
    }
  }

  /** One file's flag changes: its inode has one denier more or less. */
  lemma FlagCounts(files: map<nat, File>, f: nat, file: File, q: nat)
    requires f in files && file.inode == files[f].inode && file.deny != files[f].deny
    ensures |Handles(files[f := file], q)| == |Handles(files, q)|
    ensures |Deniers(files[f := file], q)| ==
            |Deniers(files, q)| + if q != file.inode then 0 else if file.deny then 1 else -1
  {
    hide Handles, Deniers;
    var rest := files - {f};
    assert files == rest[f := files[f]] && files[f := file] == rest[f := file];
    HandlesAdd(rest, f, files[f], q);
    HandlesAdd(rest, f, file, q);
    DeniersAdd(rest, f, files[f], q);
    DeniersAdd(rest, f, file, q);
  }

  lemma FlagKeepsCounts(s: FS, extra: multiset<nat>, f: nat, file: File, i: Inode)
    requires CountsOk(s.inodes, s.files, extra) && f in s.files && file.inode == s.files[f].inode
             && file.deny != s.files[f].deny
    requires file.inode in s.inodes ==>
             i == s.inodes[file.inode].(denyCnt := s.inodes[file.inode].denyCnt + if file.deny then 1 else -1)
    ensures file.inode in s.inodes && CountsOk(s.inodes[file.inode := i], s.files[f := file], extra)
  {
    hide Handles, Deniers;
    forall q | q in s.inodes
      ensures |Handles(s.files[f := file], q)| == |Handles(s.files, q)|
      ensures |Deniers(s.files[f := file], q)| ==
              |Deniers(s.files, q)| + if q != file.inode then 0 else if file.deny then 1 else -1
    {
      FlagCounts(s.files, f, file, q);
    }
  }

  lemma FlagKeepsRest(s: FS, s': FS, f: nat, file: File, i: Inode)
    requires NamesOk(RootEntries(s), s.inodes) && RolesOk(s) && f in s.files && f != FREE_MAP_FILE
             && file.inode == s.files[f].inode && file.inode in s.inodes
    requires i.sector == s.inodes[file.inode].sector && i.removed == s.inodes[file.inode].removed
    requires s' == s.(inodes := s.inodes[file.inode := i], files := s.files[f := file])
    ensures NamesOk(RootEntries(s), s'.inodes) && RolesOk(s') && (NamedOrRemoved(s) ==> NamedOrRemoved(s'))
  {
    hide RootEntries, Named, InodeAt, MapSize;
    SameDisk(s, s');
  }

  /** Counters of denied writes follow the flags of the files. */
  lemma DenyKeeps(s: FS, extra: multiset<nat>, f: nat, deny: bool)
    requires Inv(s, extra) && f in s.files && f != FREE_MAP_FILE && s.files[f].deny != deny
    ensures s.files[f].inode in s.inodes
    ensures var s' := if deny then DenyWrite(s, f) else AllowWrite(s, f);
            && Inv(s', extra) && SameSpace(s, s') && RootEntries(s') == RootEntries(s)
            && s'.files == s.files[f := s.files[f].(deny := deny)]
            && (forall q :: q in s.inodes ==>
                  q in s'.inodes && s'.inodes[q].openCnt == s.inodes[q].openCnt
                  && s'.inodes[q].denyCnt ==
                     s.inodes[q].denyCnt + if q != s.files[f].inode then 0 else if deny then 1 else -1)
            && (NamedOrRemoved(s) ==> NamedOrRemoved(s'))
  {
    hide SpaceOk, CountsOk, CachedOk, TableOk, NamesOk, RolesOk, RootEntries, Named, OpenSectors, NamedOrRemoved;
    var s' := if deny then DenyWrite(s, f) else AllowWrite(s, f);
    var file := s.files[f].(deny := deny);
    var p := file.inode;
    HandleIsOpen(s, extra, f);
    var i := s.inodes[p].(denyCnt := s.inodes[p].denyCnt + if deny then 1 else -1);
    FlagKeepsCounts(s, extra, f, file, i);
    FlagKeepsRest(s, s', f, file, i);
    CachedUpdate(s, p, i);
    TableUpdate(s.list, s.inodes, p, i);
    OpenSectorsUpdate(s.inodes, p, i);
    SameDisk(s, s');
    assert Live(s') == Live(s);
  }

  lemma HandleIsOpen(s: FS, extra: multiset<nat>, f: nat)
    requires CountsOk(s.inodes, s.files, extra) && f in s.files
    ensures s.files[f].inode in s.inodes
  {
  }

  lemma CachedUpdate(s: FS, p: nat, i: Inode)
    requires CachedOk(s.disk, s.inodes) && p in s.inodes && i.sector == s.inodes[p].sector && i.data == s.inodes[p].data
    ensures CachedOk(s.disk, s.inodes[p := i])
  {
  }

  /** file_close(). */
  lemma CloseFileKeeps(s: FS, f: nat, mem1: bool, mem2: bool)
    requires Inv(s, multiset{}) && f in s.files && f != FREE_MAP_FILE
    ensures var s' := CloseFile(s, f, mem1, mem2);
            && Inv(s', multiset{}) && Effect(s, s', {}) && RootEntries(s') == RootEntries(s)
            && s'.files == s.files - {f}
            && (MapGoesOut(|s.disk|, mem2) && Persisted(s) ==> Persisted(s'))
            && (NamedOrRemoved(s) ==> NamedOrRemoved(s') && Reclaims(s, s'))
  {
    hide Inv, Live, RootEntries, Named, CloseInode, Persisted, Effect, Reclaims, NamedOrRemoved;
    var s1 := AllowWrite(s, f);
    if s.files[f].deny {
      DenyKeeps(s, multiset{}, f, false);
    }
    FileRemoved(s1, multiset{}, f);
    var s2 := s1.(files := s1.files - {f});
    var p := s.files[f].inode;
    CloseInodeKeeps(s2, multiset{}, p, mem1, mem2);
    var s3 := CloseInode(s2, p, mem1, mem2);
    CloseEffect(s2, multiset{} + multiset{p}, p, s3);
    EffectAround(s, s2, s3, s3, {});
    SamePersisted(s, s2);
    assert s1.files - {f} == s.files - {f};
    SameInodes(s1, s2);
  }

  lemma SameInodes(s: FS, s': FS)
    requires s'.inodes == s.inodes && RootEntries(s') == RootEntries(s)
    ensures NamedOrRemoved(s') == NamedOrRemoved(s)
  {
  }

  // ----- Opening -----

  lemma FoundIsNamed(es: seq<D.Entry>, k: nat)
    requires k < |es| && es[k].inUse
    ensures es[k].sector in Named(es)
  {
  }

  /** The search comes upon the name, and its inode is open or there is memory to open it. */
  ghost predicate Reaches(s: FS, name: D.Name, env: Env) {
    var k := D.Find(RootEntries(s), name, 0, env.lim1);
    k.Some? && (env.ptr.Some? || RootEntries(s)[k.value].sector in OpenSectors(s.inodes))
  }

  /** Opening the root does not change what can be reached. */
  lemma ReachesFromRoot(s: FS, s1: FS, extra: multiset<nat>, name: D.Name, env: Env)
    requires Inv(s1, extra) && RootEntries(s1) == RootEntries(s)
    requires OpenSectors(s1.inodes) - {ROOT_DIR_SECTOR} == OpenSectors(s.inodes) - {ROOT_DIR_SECTOR}
    ensures Reaches(s1, name, env) <==> Reaches(s, name, env)
  {
    hide RootEntries, Inv, OpenSectors, D.Find;
    var k := D.Find(RootEntries(s), name, 0, env.lim1);
    if k.Some? {
      var x := RootEntries(s)[k.value].sector;
      FoundIsNamed(RootEntries(s), k.value);
      NamedNotReserved(s1, extra, x);
      assert x in OpenSectors(s1.inodes) <==> x in OpenSectors(s1.inodes) - {ROOT_DIR_SECTOR};
    }
  }

  lemma ReachedIff(s: FS, extra: multiset<nat>, dir: nat, name: D.Name, env: Env)
    requires Inv(s, extra) && dir in s.inodes && s.inodes[dir].sector == ROOT_DIR_SECTOR
    ensures LookupAndOpen(s, dir, name, env).1.Some? <==> Reaches(s, name, env)
    ensures LookupName(s, dir, name, env.lim1) == D.Find(RootEntries(s), name, 0, env.lim1)
    ensures LookupName(s, dir, name, env.lim1).Some? ==>
              EntrySector(s, dir, LookupName(s, dir, name, env.lim1).value) ==
              RootEntries(s)[LookupName(s, dir, name, env.lim1).value].sector
  {
    hide RootEntries, EntriesOf, D.Find, FindOpen, OpenSectors, Live, SpaceOk, CountsOk, CachedOk, NamesOk, RolesOk;
    RootIsOpen(s, extra, dir);
    var k := LookupName(s, dir, name, env.lim1);
    if k.Some? {
      FindOpenFinds(s, RootEntries(s)[k.value].sector);
    }
  }

  /** filesys_open() succeeds under exactly this condition on the state and the memory. */
  lemma OpenSucceedsIff(s: FS, name: D.Name, env: Env)
    requires Inv(s, multiset{}) && FreshEnv(s, env)
    ensures Open(s, name, env).1.Some? <==> RootOpens(s, env) && Reaches(s, name, env) && env.fileId.Some?
  {
    hide Inv, Live, RootEntries, CloseInode, OpenRoot, LookupAndOpen, RootOpens, Reaches, OpenSectors, RemovedBefore;
    OpenRootKeeps(s, env);
    RootOpensIff(s, env);
    var (s1, d) := OpenRoot(s, env);
    if d.Some? {
      ReachedIff(s1, multiset{d.value}, d.value, name, env);
      ReachesFromRoot(s, s1, multiset{d.value}, name, env);
    }
  }

  /** filesys_open(): a handle on the file that the directory names; nothing else changes. */
  lemma OpenKeeps(s: FS, name: D.Name, env: Env)
    requires Inv(s, multiset{}) && FreshEnv(s, env)
    ensures var (s', r) := Open(s, name, env);
            && Inv(s', multiset{}) && SameSpace(s, s') && RootEntries(s') == RootEntries(s)
            && (r.Some? <==> RootOpens(s, env) && Reaches(s, name, env) && env.fileId.Some?)
            && (r.None? ==> s'.files == s.files)
            && (r.Some? ==> OpenedAs(s, s', name, env.lim1, r.value))
            && (NamedOrRemoved(s) ==> NamedOrRemoved(s')) && (Persisted(s) ==> Persisted(s'))
  {
    hide Inv, Live, RootEntries, Named, CloseInode, OpenRoot, OpenInode, Persisted, NamedOrRemoved, EntriesOf, D.Find;
    hide RootOpens, Reaches;
    OpenSucceedsIff(s, name, env);
    OpenRootKeeps(s, env);
    var (s1, d) := OpenRoot(s, env);
    if d.Some? {
      var dir := d.value;
      RootIsOpen(s1, multiset{dir}, dir);
      var k := LookupName(s1, dir, name, env.lim1);
      assert multiset{} + multiset{dir} == multiset{dir};
      if k.None? {
        CloseNamed(s1, multiset{}, dir, env.map1, env.map2);
      } else {
        FoundIsNamed(RootEntries(s1), k.value);
        OpenFound(s1, dir, k.value, env);
        var (s3, p) := OpenedFound(s1, dir, k.value, env);
        if p.Some? {
          FinishOpen(s3, p.value, env);
        }
      }
    }
  }

  /** The handle is new, at position 0, on the in-memory inode of the named sector. */
  ghost predicate OpenedAs(s: FS, s': FS, name: D.Name, limit: nat, f: nat) {
    var k := D.Find(RootEntries(s), name, 0, limit);
    && k.Some? && f !in s.files && f in s'.files && s'.files == s.files[f := s'.files[f]]
    && s'.files[f].pos == 0 && !s'.files[f].deny
    && s'.files[f].inode in s'.inodes && s'.inodes[s'.files[f].inode].sector == RootEntries(s)[k.value].sector
  }

  ghost function OpenedFound(s: FS, dir: nat, k: nat, env: Env): (FS, Option<nat>) {
    var (s2, p) := OpenInode(s, EntrySector(s, dir, k), env.ptr);
    (CloseInode(s2, dir, env.map1, env.map2), p)
  }

  /** Opening the inode of entry `k` and closing the directory. */
  lemma OpenFound(s: FS, dir: nat, k: nat, env: Env)
    requires Inv(s, multiset{dir}) && dir in s.inodes && s.inodes[dir].sector == ROOT_DIR_SECTOR
    requires k < |RootEntries(s)| && RootEntries(s)[k].inUse && (env.ptr.Some? ==> env.ptr.value !in s.inodes)
    ensures var (s', p) := OpenedFound(s, dir, k, env);
            && SameSpace(s, s') && s'.files == s.files && RootEntries(s') == RootEntries(s)
            && Inv(s', if p.Some? then multiset{p.value} else multiset{})
            && (p.Some? ==> p.value in s'.inodes && s'.inodes[p.value].sector == RootEntries(s)[k].sector)
            && (NamedOrRemoved(s) ==> NamedOrRemoved(s')) && (Persisted(s) ==> Persisted(s'))
  {
    hide Inv, Live, RootEntries, Named, CloseInode, OpenInode, Persisted, NamedOrRemoved, EntriesOf;
    RootIsOpen(s, multiset{dir}, dir);
    var x := RootEntries(s)[k].sector;
    FoundIsNamed(RootEntries(s), k);
    NamedIsLive(s, x);
    OpenInodeKeeps(s, multiset{dir}, x, env.ptr);
    var (s2, p) := OpenInode(s, x, env.ptr);
    OpenKeepsNamed(s, s2, env.ptr, x, p);
    SamePersisted(s, s2);
    if p.Some? {
      assert multiset{dir} + multiset{p.value} == multiset{p.value} + multiset{dir};
      CloseNamed(s2, multiset{p.value}, dir, env.map1, env.map2);
    } else {
      assert multiset{} + multiset{dir} == multiset{dir};
      CloseNamed(s2, multiset{}, dir, env.map1, env.map2);
    }
  }

  /** file_open() of a named inode. */
  lemma FinishOpen(s: FS, p: nat, env: Env)
    requires Inv(s, multiset{p}) && p in s.inodes && s.inodes[p].sector in Named(RootEntries(s))
    requires env.fileId.Some? ==> env.fileId.value !in s.files
    ensures var (s', r) := OpenFile(s, p, env.fileId, env.map1, env.map2);
            && Inv(s', multiset{}) && SameSpace(s, s') && RootEntries(s') == RootEntries(s)
            && (NamedOrRemoved(s) ==> NamedOrRemoved(s')) && (Persisted(s) ==> Persisted(s'))
            && (r.None? ==> s'.files == s.files)
            && (r.Some? ==> s'.inodes == s.inodes && s'.files == s.files[r.value := File(p, 0, false)])
  {
    hide Inv, Live, RootEntries, Named, CloseInode, Persisted, NamedOrRemoved;
    var s' := OpenFile(s, p, env.fileId, env.map1, env.map2).0;
    assert multiset{} + multiset{p} == multiset{p};
    if env.fileId.Some? {
      NamedNotReserved(s, multiset{p}, s.inodes[p].sector);
      FileAdded(s, multiset{}, p, env.fileId.value);
      SameInodes(s, s');
      SamePersisted(s, s');
    } else {
      CloseNamed(s, multiset{}, p, env.map1, env.map2);
    }
  }

  lemma NamedNotReserved(s: FS, extra: multiset<nat>, x: nat)
    requires Inv(s, extra) && x in Named(RootEntries(s))
    ensures x > ROOT_DIR_SECTOR
  {
    hide RootEntries, SpaceOk, TableOk, CountsOk, CachedOk, RolesOk, Live;
  }

  lemma HandleCounted(s: FS, f: nat)
    requires f in s.files
    ensures |Handles(s.files, s.files[f].inode)| >= 1
  {
    var h := Handles(s.files, s.files[f].inode);
    assert f in h;
    assert |h - {f}| == |h| - 1;
  }

  /** file_reopen(): one more handle on the same in-memory inode. */
  lemma ReopenFileKeeps(s: FS, f: nat, env: Env)
    requires Inv(s, multiset{}) && FreshEnv(s, env) && f in s.files && f != FREE_MAP_FILE
    ensures var (s', r) := ReopenFile(s, f, env);
            && Inv(s', multiset{}) && SameSpace(s, s') && RootEntries(s') == RootEntries(s)
            && (NamedOrRemoved(s) ==> NamedOrRemoved(s')) && (Persisted(s) ==> Persisted(s'))
            && r == env.fileId
            && s'.files == (if r.Some? then s.files[r.value := File(s.files[f].inode, 0, false)] else s.files)
  {
    hide SpaceOk, CountsOk, CachedOk, TableOk, NamesOk, Live, RootEntries, Named, CloseInode, Persisted;
    hide NamedOrRemoved, KeepsFile, Fits, InodeAt, B.AllAre;
    var p := s.files[f].inode;
    HandleIsOpen(s, multiset{}, f);
    ReopenKeeps(s, multiset{}, p);
    var s1 := Reopen(s, p);
    ReopenNamed(s, p);
    var s' := ReopenFile(s, f, env).0;
    if env.fileId.Some? {
      FileAdded(s1, multiset{}, p, env.fileId.value);
      SameInodes(s1, s');
    } else {
      CloseInodeKeeps(s1, multiset{}, p, env.map1, env.map2);
      HandleCounted(s, f);
      InodeCounts(s, multiset{}, p);
      NotLast(s1, p, s');
    }
    SamePersisted(s, s');
  }

  lemma ReopenNamed(s: FS, p: nat)
    requires RootEntries(Reopen(s, p)) == RootEntries(s)
    ensures NamedOrRemoved(s) ==> NamedOrRemoved(Reopen(s, p))
  {
    hide RootEntries, Named;
  }

  lemma NotLast(s: FS, p: nat, s': FS)
    requires p in s.inodes && s.inodes[p].openCnt > 1 && ClosedInode(s, p, s')
    ensures SameSpace(s, s') && (NamedOrRemoved(s) ==> NamedOrRemoved(s'))
  {
    hide Live, RootEntries, Named, KeepsFile;
    InodeIsLive(s', p);
    assert Live(s') == Live(s);
  }

  // ----- filesys_remove() -----

  lemma EffectAfterSpares(a: FS, b: FS, c: FS)
    requires Spares(a.disk, b.disk, Live(a)) && Live(b) == Live(a) && b.freeMap == a.freeMap && Effect(b, c, {})
    ensures Effect(a, c, {}) && (Reclaims(b, c) ==> Reclaims(a, c))
  {
    hide Live, InExtent;
    forall x | x in Live(a) ensures InodeAt(b.disk, x) == InodeAt(a.disk, x) {
      SameInode(a.disk, b.disk, x);
    }
    forall x, y: nat | x in Live(a) ensures Occupies(b.disk, x, y) == Occupies(a.disk, x, y) {
    }
    forall x: nat | x < |a.freeMap| && a.freeMap[x] && !c.freeMap[x]
      ensures exists y :: y in Live(a) && y !in Live(c) && Occupies(a.disk, y, x)
    {
      var y :| y in Live(b) && y !in Live(c) && Occupies(b.disk, y, x);
    }
  }

  /** What dir_remove() leaves: the name is gone; the inode is marked for deletion while it
      is open and freed at once when it is not. */
  ghost predicate Removed(s: FS, s': FS, name: D.Name, limit: nat) {
    var k := D.Find(RootEntries(s), name, 0, limit);
    && k.Some?
    && RootEntries(s') == RootEntries(s)[k.value := RootEntries(s)[k.value].(inUse := false)]
    && (forall p :: p in s'.inodes && s'.inodes[p].sector == RootEntries(s)[k.value].sector ==> s'.inodes[p].removed)
    && (RootEntries(s)[k.value].sector in Live(s') <==> RootEntries(s)[k.value].sector in OpenSectors(s.inodes))
  }

  /** Erasing the entry and marking the inode. */
  lemma EraseAndMark(s: FS, extra: multiset<nat>, dir: nat, k: nat, p: nat)
    requires Inv(s, extra) && dir in s.inodes && s.inodes[dir].sector == ROOT_DIR_SECTOR && p in s.inodes
    requires k < |RootEntries(s)| && RootEntries(s)[k].inUse && s.inodes[p].sector == RootEntries(s)[k].sector
    ensures var s', es := RemoveInode(EraseEntry(s, dir, k, true), p), RootEntries(s);
            && Inv(s', extra) && s'.files == s.files && s'.freeMap == s.freeMap && Live(s') == Live(s)
            && s'.inodes == s.inodes[p := s.inodes[p].(removed := true)]
            && Spares(s.disk, s'.disk, Live(s)) && |s'.disk| == |s.disk|
            && RootEntries(s') == es[k := es[k].(inUse := false)]
            && (Persisted(s) ==> Persisted(s'))
            && (NamedOrRemoved(s) ==> NamedOrRemoved(s'))
  {
    hide SpaceOk, Inv, Live, RootEntries, Named, Persisted, NamedOrRemoved, KeepsFile, Fits, InodeAt, Occupies;
    hide EraseEntry;
    var s1 := EraseEntry(s, dir, k, true);
    EraseKeeps(s, extra, dir, k, p, true);
    RemoveInodeKeeps(s1, extra, p);
    SamePersisted(s1, RemoveInode(s1, p));
    DirSpares(s, s1);
    InvTable(s, extra);
    ErasedNamed(s, s1, k, p);
  }

  /** The tail of dir_remove(): erase, mark and close. */
  lemma EraseAndClose(s: FS, dir: nat, k: nat, p: nat, env: Env)
    requires Inv(s, multiset{dir, p}) && dir in s.inodes && s.inodes[dir].sector == ROOT_DIR_SECTOR && p in s.inodes
    requires k < |RootEntries(s)| && RootEntries(s)[k].inUse && s.inodes[p].sector == RootEntries(s)[k].sector
    ensures var s', es := CloseInode(RemoveInode(EraseEntry(s, dir, k, true), p), p, env.map1, env.map2),
            RootEntries(s);
            && Inv(s', multiset{dir}) && s'.files == s.files && Effect(s, s', {})
            && RootEntries(s') == es[k := es[k].(inUse := false)]
            && dir in s'.inodes && s'.inodes[dir].sector == ROOT_DIR_SECTOR
            && (forall q :: q in s'.inodes && s'.inodes[q].sector == es[k].sector ==> s'.inodes[q].removed)
            && (es[k].sector in Live(s') <==> s.inodes[p].openCnt > 1)
            && (MapGoesOut(|s.disk|, env.map2) && Persisted(s) ==> Persisted(s'))
            && (NamedOrRemoved(s) ==> NamedOrRemoved(s') && Reclaims(s, s'))
  {
    hide SpaceOk, Inv, Live, RootEntries, Named, CloseInode, RemoveInode, Persisted, NamedOrRemoved, KeepsFile;
    hide Fits, InodeAt, B.AllAre, Effect, Reclaims, Occupies, EraseEntry, Spares;
    EraseAndMark(s, multiset{dir, p}, dir, k, p);
    var s2 := RemoveInode(EraseEntry(s, dir, k, true), p);
    assert multiset{dir, p} == multiset{dir} + multiset{p};
    CloseInodeKeeps(s2, multiset{dir}, p, env.map1, env.map2);
    var s3 := CloseInode(s2, p, env.map1, env.map2);
    CloseEffect(s2, multiset{dir, p}, p, s3);
    EffectAfterSpares(s, s2, s3);
    FoundIsNamed(RootEntries(s), k);
    NamedNotReserved(s, multiset{dir, p}, s.inodes[p].sector);
    AfterRemoval(s, s2, s3, dir, p);
  }

  lemma AfterRemoval(s: FS, s2: FS, s3: FS, dir: nat, p: nat)
    requires Inv(s, multiset{dir, p}) && dir in s.inodes && p in s.inodes
             && s.inodes[dir].sector == ROOT_DIR_SECTOR < s.inodes[p].sector
    requires s2.inodes == s.inodes[p := s.inodes[p].(removed := true)] && ClosedInode(s2, p, s3)
    ensures dir in s3.inodes && s3.inodes[dir].sector == ROOT_DIR_SECTOR
    ensures forall q :: q in s3.inodes && s3.inodes[q].sector == s.inodes[p].sector ==> s3.inodes[q].removed
    ensures s.inodes[p].sector in Live(s3) <==> s.inodes[p].openCnt > 1
  {
    hide SpaceOk, CachedOk, NamesOk, RolesOk, Live, RootEntries, Named, KeepsFile, Fits, InodeAt, B.AllAre, Handles;
    hide Deniers;
    OpenStaysLive(s3, p);
  }

  lemma OpenStaysLive(s: FS, p: nat)
    ensures p in s.inodes ==> s.inodes[p].sector in Live(s)
  {
  }

  lemma DirSpares(s: FS, s': FS)
    requires DirWritten(s, s', Live(s))
    ensures Spares(s.disk, s'.disk, Live(s))
  {
    hide Live, KeepsFile, Persisted;
  }

  lemma ErasedNamed(s: FS, s1: FS, k: nat, p: nat)
    requires k < |RootEntries(s)| && p in s.inodes && s1.inodes == s.inodes
             && s.inodes[p].sector == RootEntries(s)[k].sector
    requires RootEntries(s1) == RootEntries(s)[k := RootEntries(s)[k].(inUse := false)]
    requires RootEntries(RemoveInode(s1, p)) == RootEntries(s1)
    requires TableOk(s.list, s.inodes)
    ensures NamedOrRemoved(s) ==> NamedOrRemoved(RemoveInode(s1, p))
  {
    hide RootEntries;
    var es, es' := RootEntries(s), RootEntries(s1);
    forall x | x in Named(es) && x != es[k].sector ensures x in Named(es') {
      var j :| 0 <= j < |es| && es[j].inUse && es[j].sector == x;
      assert es'[j] == es[j];
    }
  }

  /** dir_remove() when the entry cannot be written: only the reference is given back. */
  lemma EraseFails(s: FS, dir: nat, k: nat, p: nat, env: Env)
    requires Inv(s, multiset{dir, p}) && dir in s.inodes && s.inodes[dir].sector == ROOT_DIR_SECTOR && p in s.inodes
    requires k < |RootEntries(s)| && RootEntries(s)[k].inUse && s.inodes[p].sector == RootEntries(s)[k].sector
    ensures var s' := CloseInode(EraseEntry(s, dir, k, false), p, env.map1, env.map2);
            && Inv(s', multiset{dir}) && s'.files == s.files && Effect(s, s', {}) && Live(s') == Live(s)
            && RootEntries(s') == RootEntries(s)
            && dir in s'.inodes && s'.inodes[dir].sector == ROOT_DIR_SECTOR
            && (Persisted(s) ==> Persisted(s'))
            && (NamedOrRemoved(s) ==> NamedOrRemoved(s') && Reclaims(s, s'))
  {
    hide SpaceOk, Inv, Live, RootEntries, Named, CloseInode, Persisted, NamedOrRemoved, KeepsFile, Fits, InodeAt;
    hide Effect, Reclaims, Occupies, EraseEntry, Spares, OpenSectors;
    var s1 := EraseEntry(s, dir, k, false);
    EraseKeeps(s, multiset{dir, p}, dir, k, p, false);
    DirSpares(s, s1);
    SameInodes(s, s1);
    assert multiset{dir, p} == multiset{dir} + multiset{p};
    FoundIsNamed(RootEntries(s), k);
    CloseNamed(s1, multiset{dir}, p, env.map1, env.map2);
    var s2 := CloseInode(s1, p, env.map1, env.map2);
    EffectRefl(s1);
    EffectAround(s1, s1, s1, s2, {});
    EffectAfterSpares(s, s1, s2);
    assert dir in multiset{dir};
  }

  lemma RemoveSucceeds(s: FS, dir: nat, name: D.Name, env: Env)
    requires Inv(s, multiset{dir}) && dir in s.inodes && s.inodes[dir].sector == ROOT_DIR_SECTOR
    ensures RemoveName(s, dir, name, env).1 <==> Reaches(s, name, env) && env.entryMem
  {
    hide Inv, RootEntries, CloseInode, OpenInode, RemoveInode, EraseEntry, D.Find, OpenSectors, Reaches;
    ReachedIff(s, multiset{dir}, dir, name, env);
  }

  /** dir_remove() once the directory is open. */
  lemma RemoveNameKeeps(s: FS, dir: nat, name: D.Name, env: Env)
    requires Inv(s, multiset{dir}) && dir in s.inodes && s.inodes[dir].sector == ROOT_DIR_SECTOR
    requires env.ptr.Some? ==> env.ptr.value !in s.inodes
    ensures var (s', ok) := RemoveName(s, dir, name, env);
            && Inv(s', multiset{dir}) && s'.files == s.files && Effect(s, s', {})
            && dir in s'.inodes && s'.inodes[dir].sector == ROOT_DIR_SECTOR
            && (ok <==> Reaches(s, name, env) && env.entryMem)
            && (ok ==> Removed(s, s', name, env.lim1))
            && (!ok ==> RootEntries(s') == RootEntries(s) && Live(s') == Live(s))
            && (MapGoesOut(|s.disk|, env.map2) && Persisted(s) ==> Persisted(s'))
            && (NamedOrRemoved(s) ==> NamedOrRemoved(s') && Reclaims(s, s'))
  {
    hide Inv, Live, RootEntries, Named, CloseInode, OpenInode, RemoveInode, EraseEntry, Persisted, NamedOrRemoved;
    hide EntriesOf, D.Find, Effect, Reclaims, OpenSectors, Reaches;
    RemoveSucceeds(s, dir, name, env);
    RootIsOpen(s, multiset{dir}, dir);
    EffectRefl(s);
    var k := LookupName(s, dir, name, env.lim1);
    if k.Some? {
      var x := RootEntries(s)[k.value].sector;
      FoundIsNamed(RootEntries(s), k.value);
      NamedIsLive(s, x);
      OpenInodeKeeps(s, multiset{dir}, x, env.ptr);
      OpenInodeSectors(s, multiset{dir}, x, env.ptr);
      var (s1, p) := OpenInode(s, x, env.ptr);
      OpenKeepsNamed(s, s1, env.ptr, x, p);
      SamePersisted(s, s1);
      EffectRefl(s1);
      EffectAround(s, s1, s1, s1, {});
      if p.Some? {
        assert multiset{dir} + multiset{p.value} == multiset{dir, p.value};
        if env.entryMem {
          EraseAndClose(s1, dir, k.value, p.value, env);
          EffectAround(s, s1, RemoveName(s, dir, name, env).0, RemoveName(s, dir, name, env).0, {});
        } else {
          EraseFails(s1, dir, k.value, p.value, env);
          EffectAround(s, s1, RemoveName(s, dir, name, env).0, RemoveName(s, dir, name, env).0, {});
        }
      }
    }
  }

  /** filesys_remove(). */
  lemma RemoveKeeps(s: FS, name: D.Name, env: Env)
    requires Inv(s, multiset{}) && FreshEnv(s, env)
    ensures var (s', ok) := Remove(s, name, env);
            && Inv(s', multiset{}) && s'.files == s.files && Effect(s, s', {})
            && (ok <==> RootOpens(s, env) && Reaches(s, name, env) && env.entryMem)
            && (ok ==> Removed(s, s', name, env.lim1))
            && (!ok ==> RootEntries(s') == RootEntries(s) && Live(s') == Live(s))
            && (MapGoesOut(|s.disk|, env.map2) && Persisted(s) ==> Persisted(s'))
            && (NamedOrRemoved(s) ==> NamedOrRemoved(s') && Reclaims(s, s'))
  {
    hide Inv, Live, RootEntries, Named, CloseInode, OpenRoot, RemoveName, Persisted, NamedOrRemoved, D.Find, Effect;
    hide Reclaims, OpenSectors;
    hide RootOpens, Reaches;
    RootOpensIff(s, env);
    OpenRootKeeps(s, env);
    var (s1, d) := OpenRoot(s, env);
    if d.None? {
      EffectRefl(s1);
      EffectAround(s, s1, s1, s1, {});
    } else {
      var dir := d.value;
      ReachesFromRoot(s, s1, multiset{dir}, name, env);
      RemoveNameKeeps(s1, dir, name, env);
      var (s2, ok) := RemoveName(s1, dir, name, env);
      assert multiset{} + multiset{dir} == multiset{dir};
      CloseNamed(s2, multiset{}, dir, env.map1, env.map2);
      var s3 := CloseInode(s2, dir, env.map1, env.map2);
      EffectAround(s, s1, s2, s3, {});
      if ok {
        InvTable(s1, multiset{dir});
        RemovedAround(s, s1, s2, s3, name, env.lim1);
      }
    }
  }

  lemma RemovedAround(s: FS, s1: FS, s2: FS, s3: FS, name: D.Name, limit: nat)
    requires Removed(s1, s2, name, limit) && RootEntries(s) == RootEntries(s1) && RootEntries(s3) == RootEntries(s2)
             && Live(s3) == Live(s2)
    requires OpenSectors(s1.inodes) - {ROOT_DIR_SECTOR} == OpenSectors(s.inodes) - {ROOT_DIR_SECTOR}
    requires forall q :: q in s3.inodes ==>
             q in s2.inodes && s3.inodes[q].sector == s2.inodes[q].sector
               && s3.inodes[q].removed == s2.inodes[q].removed
    requires NamesOk(RootEntries(s1), s1.inodes)
    ensures Removed(s, s3, name, limit)
  {
    hide Live, RootEntries, OpenSectors, D.Find;
    var x := RootEntries(s)[D.Find(RootEntries(s), name, 0, limit).value].sector;
    assert x in OpenSectors(s1.inodes) <==> x in OpenSectors(s1.inodes) - {ROOT_DIR_SECTOR};
  }

  // ----- Reading and writing -----

  /** Moving the position of a file. */
  lemma SeekKeeps(s: FS, extra: multiset<nat>, f: nat, pos: nat)
    requires Inv(s, extra) && f in s.files
    ensures var s' := Seek(s, f, pos);
            && Inv(s', extra) && SameSpace(s, s') && RootEntries(s') == RootEntries(s)
            && s'.files == s.files[f := s'.files[f]] && s'.files[f].pos == pos
            && s'.files[f].inode == s.files[f].inode && s'.files[f].deny == s.files[f].deny
            && (NamedOrRemoved(s) ==> NamedOrRemoved(s')) && (Persisted(s) ==> Persisted(s'))
  {
    hide SpaceOk, TableOk, CachedOk, NamesOk, RootEntries, Named, InodeAt, MapSize, Handles, Deniers;
    hide NamedOrRemoved, Persisted;
    var s' := Seek(s, f, pos);
    SameDisk(s, s');
    SamePersisted(s, s');
    SameInodes(s, s');
    forall q | q in s.inodes
      ensures |Handles(s'.files, q)| == |Handles(s.files, q)| && |Deniers(s'.files, q)| == |Deniers(s.files, q)|
    {
      PositionCounts(s.files, f, s'.files[f], q);
    }
  }

  lemma PositionCounts(files: map<nat, File>, f: nat, file: File, q: nat)
    requires f in files && file.inode == files[f].inode && file.deny == files[f].deny
    ensures Handles(files[f := file], q) == Handles(files, q) && Deniers(files[f := file], q) == Deniers(files, q)
  {
    var files' := files[f := file];
    assert forall g :: g in files <==> g in files';
  }

  /** The bytes of the file whose inode is in sector x. */
  ghost function FileBytes(s: FS, x: nat): seq<Byte> {
    if Formed(s.disk) && Fits(s.disk, InodeAt(s.disk, x)) then Contents(s.disk, InodeAt(s.disk, x)) else []
  }

  /** Some open file on the inode of f denies writes. */
  ghost predicate Denied(s: FS, f: nat)
    requires f in s.files
  {
    exists g :: g in s.files && s.files[g].inode == s.files[f].inode && s.files[g].deny
  }

  /** The bytes that file_write() moves: none if writes to the file are denied. */
  lemma WriteCountIs(s: FS, f: nat, size: nat, memory: bool)
    requires Inv(s, multiset{}) && f in s.files
    ensures s.files[f].inode in s.inodes
    ensures Denied(s, f) ==> WriteCount(s, f, size, memory) == 0
    ensures !Denied(s, f) ==>
              var x := s.inodes[s.files[f].inode].sector;
              MovesAll(|FileBytes(s, x)|, s.files[f].pos, size, memory, WriteCount(s, f, size, memory))
  {
    hide SpaceOk, TableOk, NamesOk, RolesOk, Live, RootEntries, Contents, InodeAt;
    HandleIsOpen(s, multiset{}, f);
    var p := s.files[f].inode;
    InodeIsLive(s, p);
    OldInode(s, multiset{}, p);
    SpaceSizes(s.disk, s.freeMap, Live(s));
    DeniedIff(s, f);
    hide CountsOk, CachedOk, Denied, Fits;
    MovedMoves(s.inodes[p].data.length, s.files[f].pos, size, memory);
  }

  lemma DeniedIff(s: FS, f: nat)
    requires f in s.files
    ensures Denied(s, f) <==> |Deniers(s.files, s.files[f].inode)| > 0
  {
    var d := Deniers(s.files, s.files[f].inode);
    if Denied(s, f) {
      var g :| g in s.files && s.files[g].inode == s.files[f].inode && s.files[g].deny;
      assert g in d;
    } else {
      assert d == {};
    }
  }

  /** file_write(): the bytes at the position change and no other file does. */
  lemma WriteKeeps(s: FS, f: nat, data: seq<Byte>, memory: bool)
    requires Inv(s, multiset{}) && f in s.files && f != FREE_MAP_FILE
    ensures s.files[f].inode in s.inodes
    ensures var s' := WriteFile(s, f, data, memory);
            var x := s.inodes[s.files[f].inode].sector;
            var n, pos := WriteCount(s, f, |data|, memory), s.files[f].pos;
            && Inv(s', multiset{}) && Effect(s, s', {x}) && Live(s') == Live(s) && RootEntries(s') == RootEntries(s)
            && s'.freeMap == s.freeMap && s'.inodes == s.inodes
            && s'.files == s.files[f := s.files[f].(pos := pos + n)]
            && (NamedOrRemoved(s) ==> NamedOrRemoved(s') && Reclaims(s, s')) && (Persisted(s) ==> Persisted(s'))
            && (Denied(s, f) ==> n == 0)
            && (!Denied(s, f) ==> MovesAll(|FileBytes(s, x)|, pos, |data|, memory, n))
            && (n == 0 ==> s'.disk == s.disk)
            && (n > 0 ==> pos + n <= |FileBytes(s, x)| && FileBytes(s', x) == Splice(FileBytes(s, x), pos, data[..n]))
  {
    hide SpaceOk, CountsOk, CachedOk, TableOk, NamesOk, RolesOk, Live, RootEntries, Named, InodeAt, Persisted;
    hide NamedOrRemoved, Reclaims, WriteBytes, Contents, Splice, InExtent;
    hide Denied, MovesAll;
    WriteCountIs(s, f, |data|, memory);
    HandleIsOpen(s, multiset{}, f);
    var i := s.inodes[s.files[f].inode];
    var x, n, pos := i.sector, WriteCount(s, f, |data|, memory), s.files[f].pos;
    InodeIsLive(s, s.files[f].inode);
    OldInode(s, multiset{}, s.files[f].inode);
    SpaceSizes(s.disk, s.freeMap, Live(s));
    HandleNotReserved(s, f);
    var disk' := WriteBytes(s.disk, i.data.start, pos, data[..n]);
    var s1 := s.(disk := disk');
    if n == 0 {
      assert data[..n] == [];
      WriteNothing(s.disk, i.data.start, pos);
      SameFiles(s.disk, Live(s));
    } else {
      forall b | 0 <= b < |s.disk| && !InExtent(i.data, b) ensures disk'[b] == s.disk[b] {
        WriteBytesFrame(s.disk, i.data, pos, data[..n], b);
      }
      ExtentWrite(s, x, disk', multiset{});
      WriteBytesContents(s.disk, i.data, pos, data[..n]);
      SameInode(s.disk, disk', x);
      ReservedLive(s);
      SameMapFile(s, s1);
      SameInodes(s, s1);
    }
    SeekKeeps(s1, multiset{}, f, pos + n);
    SubsetReclaims(s, Seek(s1, f, pos + n));
  }

  lemma HandleNotReserved(s: FS, f: nat)
    requires RolesOk(s) && f in s.files && f != FREE_MAP_FILE && s.files[f].inode in s.inodes
    ensures s.inodes[s.files[f].inode].sector > ROOT_DIR_SECTOR
  {
  }

  lemma SameMapFile(s: FS, s': FS)
    requires Formed(s.disk) && Formed(s'.disk) && 0 < |s.disk| && s'.freeMap == s.freeMap
             && KeepsFile(s.disk, s'.disk, FREE_MAP_SECTOR)
    ensures Persisted(s) ==> Persisted(s')
  {
    KeptFile(s.disk, s'.disk, FREE_MAP_SECTOR);
  }

  // ----- Steps -----

  /** The files whose bytes an operation may change. */
  ghost function Targets(s: FS, op: Op): set<nat> {
    if op.WriteOp? && op.f in s.files && s.files[op.f].inode in s.inodes
    then {s.inodes[s.files[op.f].inode].sector}
    else {}
  }

  /** filesys_create() succeeds by writing its entry over that of another file: its search for
      a free slot had run out of memory at a slot in use. */
  ghost predicate TakesUsedSlot(s: FS, op: Op) {
    op.CreateOp? && Creates(s, op.name, op.size, op.env) && D.SlotUsed(RootEntries(s), op.env.lim2)
  }

  /** The free map writes that can leave the map on disk stale are complete: those of a create
      that fails, and the last one of a close. */
  ghost predicate MapWritesDone(s: FS, op: Op) {
    match op
    case CreateOp(name, size, env) =>
      Creates(s, name, size, env) || (MapGoesOut(|s.disk|, env.map1) && MapGoesOut(|s.disk|, env.map3))
    case RemoveOp(_, env) => MapGoesOut(|s.disk|, env.map2)
    case CloseOp(_, env) => MapGoesOut(|s.disk|, env.map2)
    case _ => true
  }

  /** Every operation keeps the invariant and respects the other files.  Unless it takes a used
      slot it frees at once what is no longer live, and when its writes of the free map are
      complete it leaves the map on disk up to date. */
  lemma StepKeeps(s: FS, op: Op)
    requires Inv(s, multiset{}) && Legal(s, op)
    ensures Inv(Step(s, op), multiset{})
    ensures Effect(s, Step(s, op), Targets(s, op))
    ensures !TakesUsedSlot(s, op) && NamedOrRemoved(s) ==> NamedOrRemoved(Step(s, op)) && Reclaims(s, Step(s, op))
    ensures MapWritesDone(s, op) && Persisted(s) ==> Persisted(Step(s, op))
  {
    hide MapGoesOut, Inv, Live, Effect, Reclaims, NamedOrRemoved, Persisted, Create, Open, Remove, ReopenFile;
    hide CloseFile, DenyWrite, AllowWrite, WriteFile, Removed, NewFile, OpenedAs, RootEntries, FileBytes, Splice;
    hide RemovedBefore;
    match op
    case CreateOp(name, size, env) => CreateKeeps(s, name, size, env);
    case OpenOp(name, env) =>
      OpenKeeps(s, name, env);
      QuietEffect(s, Step(s, op));
    case RemoveOp(name, env) => RemoveKeeps(s, name, env);
    case ReopenOp(f, env) =>
      ReopenFileKeeps(s, f, env);
      QuietEffect(s, Step(s, op));
    case CloseOp(f, env) => CloseFileKeeps(s, f, env.map1, env.map2);
    case DenyOp(f) => FlagStep(s, f, true);
    case AllowOp(f) => FlagStep(s, f, false);
    case SeekOp(f, pos) =>
      SeekKeeps(s, multiset{}, f, pos);
      QuietEffect(s, Step(s, op));
    case WriteOp(f, data, memory) => WriteKeeps(s, f, data, memory);
  }

  /** The condition is exact: a create that takes a used slot loses track of the file whose
      entry it overwrites. */
  lemma ReclaimsIff(s: FS, op: Op)
    requires Inv(s, multiset{}) && Legal(s, op) && NamedOrRemoved(s)
    ensures NamedOrRemoved(Step(s, op)) && Reclaims(s, Step(s, op)) <==> !TakesUsedSlot(s, op)
  {
    hide MapGoesOut, Inv, Live, Effect, Reclaims, NamedOrRemoved, Persisted, Create, RootEntries, OpenSectors, D.Add;
    StepKeeps(s, op);
    if TakesUsedSlot(s, op) {
      var s' := Step(s, op);
      var k := D.Slot(RootEntries(s), 0, op.env.lim2);
      CreateKeeps(s, op.name, op.size, op.env);
      var x :| NewFile(s, s', op.name, op.size, op.env, x);
      AddTakesSlot(RootEntries(s), op.name, x, op.env);
      FoundIsNamed(RootEntries(s), k);
      NamedIsLive(s, RootEntries(s)[k].sector);
      LosesTrack(s, s', k, op.name, x);
    }
  }

  lemma AddTakesSlot(es: seq<D.Entry>, name: D.Name, x: nat, env: Env)
    requires D.Add(es, name, x, env.lim1, env.lim2, env.entryMem).1
    ensures var k := D.Slot(es, 0, env.lim2);
            k < |es| && D.Add(es, name, x, env.lim1, env.lim2, env.entryMem).0 == es[k := D.Entry(x, name, true)]
  {
  }

  /** The file of an overwritten entry has no name; it is not marked as removed, so either it
      stays open without a name, or it is live no more with its sectors still taken. */
  lemma LosesTrack(s: FS, s': FS, k: nat, name: D.Name, x: nat)
    requires Inv(s, multiset{}) && Inv(s', multiset{}) && Grows(s, s') && RemovedBefore(s, s')
    requires k < |RootEntries(s)| && RootEntries(s)[k].inUse && x !in Live(s) && RootEntries(s)[k].sector in Live(s)
    requires RootEntries(s') == RootEntries(s)[k := D.Entry(x, name, true)]
    ensures !(NamedOrRemoved(s') && Reclaims(s, s'))
  {
    hide SpaceOk, TableOk, CountsOk, CachedOk, RolesOk, RootEntries, InodeAt;
    var es, y := RootEntries(s), RootEntries(s)[k].sector;
    SpaceSizes(s.disk, s.freeMap, Live(s));
    OwnMark(s.disk, s.freeMap, Live(s), y);
    assert y !in Named(RootEntries(s')) && y in Named(es) && y > ROOT_DIR_SECTOR;
    if y in Live(s') {
      var p :| p in s'.inodes && s'.inodes[p].sector == y;
      assert !s'.inodes[p].removed;
    }
  }

  lemma OwnMark(disk: Disk, marks: seq<bool>, live: set<nat>, x: nat)
    requires SpaceOk(disk, marks, live) && x in live
    ensures Occupies(disk, x, x) && x < |marks| && marks[x]
  {
  }

  lemma QuietEffect(s: FS, s': FS)
    requires SameSpace(s, s')
    ensures Effect(s, s', {}) && Reclaims(s, s')
  {
    hide Live, Effect, Reclaims;
    EffectRefl(s);
    EffectAround(s, s, s, s', {});
  }

  lemma FlagStep(s: FS, f: nat, deny: bool)
    requires Inv(s, multiset{}) && f in s.files && f != FREE_MAP_FILE
    ensures var s' := if deny then DenyWrite(s, f) else AllowWrite(s, f);
            && Inv(s', multiset{}) && Effect(s, s', {}) && Reclaims(s, s')
            && (NamedOrRemoved(s) ==> NamedOrRemoved(s')) && (Persisted(s) ==> Persisted(s'))
  {
    hide Inv, Live, Effect, Reclaims, NamedOrRemoved, Persisted, RootEntries;
    var s' := if deny then DenyWrite(s, f) else AllowWrite(s, f);
    if s.files[f].deny != deny {
      DenyKeeps(s, multiset{}, f, deny);
    }
    SamePersisted(s, s');
    QuietEffect(s, s');
  }
}
