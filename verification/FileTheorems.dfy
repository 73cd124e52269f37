/** What holds over every run of the file system, from a formatted device on. */
module FileTheorems {

  import opened Lists
  import opened Blocks
  import opened FileSystem
  import opened FileInvariant
  import opened FileOps
  import opened FileRuns
  import opened FileMount
  import opened FileStale

  ghost predicate IsRun(states: seq<FS>, ops: seq<Op>) {
    && |states| == |ops| + 1
    && (exists disk, env :: Formed(disk) && |disk| >= 2 && Boot(disk, env) == Some(states[0]))
    && (forall i :: 0 <= i < |ops| ==> Legal(states[i], ops[i]) && states[i + 1] == Step(states[i], ops[i]))
  }

  /** None of the first n operations creates a file over the entry of another. */
  ghost predicate NoSlotTaken(states: seq<FS>, ops: seq<Op>, n: nat)
    requires n <= |ops| < |states|
  {
    forall k :: 0 <= k < n ==> !TakesUsedSlot(states[k], ops[k])
  }

  lemma {:induction false} FileInvAlways(states: seq<FS>, ops: seq<Op>, i: nat)
    requires IsRun(states, ops) && i < |states|
    ensures Inv(states[i], multiset{})
    ensures NoSlotTaken(states, ops, i) ==> NamedOrRemoved(states[i])
  {
    hide Inv, NamedOrRemoved, Persisted, Legal, Step, Boot, Effect, Reclaims, TakesUsedSlot, MapWritesDone;
    if i == 0 {
      var disk, env :| Formed(disk) && |disk| >= 2 && Boot(disk, env) == Some(states[0]);
      BootSatisfiesInv(disk, env);
    } else {
      FileInvAlways(states, ops, i - 1);
      StepKeeps(states[i - 1], ops[i - 1]);
    }
  }

  /** The free map on disk is up to date until a step leaves it stale. */
  lemma {:induction false} PersistedAlways(states: seq<FS>, ops: seq<Op>, i: nat)
    requires IsRun(states, ops) && i < |states|
    requires forall k :: 0 <= k < i ==> !LeavesStale(states[k], ops[k])
    ensures Persisted(states[i])
  {
    hide Inv, NamedOrRemoved, Persisted, Legal, Step, Boot, Effect, Reclaims, TakesUsedSlot, LeavesStale;
    if i == 0 {
      var disk, env :| Formed(disk) && |disk| >= 2 && Boot(disk, env) == Some(states[0]);
      BootSatisfiesInv(disk, env);
    } else {
      PersistedAlways(states, ops, i - 1);
      FileInvAlways(states, ops, i - 1);
      PersistedIff(states[i - 1], ops[i - 1]);
    }
  }

  /** It is up to date in all of the first n + 1 states exactly when none of the first n steps
      leaves it stale. */
  lemma PersistedThroughout(states: seq<FS>, ops: seq<Op>, n: nat)
    requires IsRun(states, ops) && n < |states|
    ensures (forall i :: 0 <= i <= n ==> Persisted(states[i])) <==>
            (forall k :: 0 <= k < n ==> !LeavesStale(states[k], ops[k]))
  {
    hide Inv, Persisted, Legal, Step, Boot, LeavesStale;
    if forall k :: 0 <= k < n ==> !LeavesStale(states[k], ops[k]) {
      forall i | 0 <= i <= n ensures Persisted(states[i]) {
        PersistedAlways(states, ops, i);
      }
    }
    if forall i :: 0 <= i <= n ==> Persisted(states[i]) {
      forall k | 0 <= k < n ensures !LeavesStale(states[k], ops[k]) {
        FileInvAlways(states, ops, k);
        PersistedIff(states[k], ops[k]);
        assert Persisted(states[k + 1]);
      }
    }
  }

  /** Complete writes are enough. */
  lemma EnoughForMap(s: FS, op: Op)
    requires MapWritesDone(s, op) && |s.freeMap| == |s.disk|
    ensures !LeavesStale(s, op)
  {
    hide MapGoesOut, Creates, RootOpens, RootEntries, B.FirstGroup, HeadBits, Reaches;
  }

  /** At most one in-memory inode per sector, and its counters count exactly the handles and
      the denying handles; so the ASSERTs of inode_deny_write() and inode_allow_write() hold. */
  lemma CountersExact(states: seq<FS>, ops: seq<Op>, i: nat)
    requires IsRun(states, ops) && i < |states|
    ensures var s := states[i];
            && (forall p, q :: p in s.inodes && q in s.inodes && s.inodes[p].sector == s.inodes[q].sector ==> p == q)
            && (forall p :: p in s.inodes ==>
                  && s.inodes[p].openCnt == |Handles(s.files, p)| > 0
                  && s.inodes[p].denyCnt == |Deniers(s.files, p)| <= s.inodes[p].openCnt)
            && (forall f :: f in s.files && s.files[f].deny ==>
                s.files[f].inode in s.inodes && s.inodes[s.files[f].inode].denyCnt > 0)
  {
    hide IsRun, SpaceOk, CachedOk, NamesOk, RolesOk, Live, RootEntries;
    FileInvAlways(states, ops, i);
    var s := states[i];
    forall p | p in s.inodes ensures |Deniers(s.files, p)| <= |Handles(s.files, p)| {
      SubsetSize(Deniers(s.files, p), Handles(s.files, p));
    }
    forall f | f in s.files && s.files[f].deny ensures s.inodes[s.files[f].inode].denyCnt > 0 {
      assert f in Deniers(s.files, s.files[f].inode);
    }
  }

  /** The sectors of two live inodes are disjoint, and all are marked in the free map. */
  lemma ExtentsDisjoint(states: seq<FS>, ops: seq<Op>, i: nat, x: nat, b: nat)
    requires IsRun(states, ops) && i < |states| && x in Live(states[i]) && Occupies(states[i].disk, x, b)
    ensures b < |states[i].freeMap| && states[i].freeMap[b]
    ensures forall y :: y in Live(states[i]) && y != x ==> !Occupies(states[i].disk, y, b)
  {
    hide IsRun, Live, Occupies, TableOk, CountsOk, CachedOk, NamesOk, RolesOk;
    FileInvAlways(states, ops, i);
  }

  /** A step frees a sector exactly when its inode stops being live: the sectors of a removed
      file go at its last close and not before.  The one thing that must not have happened is
      a create over the entry of another file. */
  lemma ReleasedExactly(states: seq<FS>, ops: seq<Op>, i: nat, b: nat)
    requires IsRun(states, ops) && i < |ops| && NoSlotTaken(states, ops, i + 1)
    requires b < |states[i].freeMap| && states[i].freeMap[b]
    ensures |states[i + 1].freeMap| == |states[i].freeMap|
    ensures !states[i + 1].freeMap[b] <==>
            exists x :: x in Live(states[i]) && x !in Live(states[i + 1]) && Occupies(states[i].disk, x, b)
  {
    hide Inv, NamedOrRemoved, Persisted, Legal, Step, Boot, Live, Occupies, KeepsFile, TakesUsedSlot, MapWritesDone;
    FileInvAlways(states, ops, i);
    StepKeeps(states[i], ops[i]);
  }

  /** An inode is live exactly when it is reserved, named, or removed and still open. */
  lemma LiveMeaning(states: seq<FS>, ops: seq<Op>, i: nat, x: nat)
    requires IsRun(states, ops) && i < |states| && NoSlotTaken(states, ops, i)
    ensures x in Live(states[i]) <==>
            || x <= ROOT_DIR_SECTOR || x in Named(RootEntries(states[i]))
            || exists p :: p in states[i].inodes && states[i].inodes[p].sector == x && states[i].inodes[p].removed
    ensures forall p :: p in states[i].inodes && states[i].inodes[p].removed ==>
            states[i].inodes[p].sector !in Named(RootEntries(states[i]))
  {
    hide IsRun, SpaceOk, TableOk, CachedOk, CountsOk, RolesOk, RootEntries, Named, NoSlotTaken;
    FileInvAlways(states, ops, i);
    var s := states[i];
    if x in Live(s) && x > ROOT_DIR_SECTOR && x !in Named(RootEntries(s)) {
      var p :| p in s.inodes && s.inodes[p].sector == x;
      assert s.inodes[p].removed;
    }
  }

  /** Between two points of a run a file that stays live and is not written to keeps its
      bytes, whatever happens to other files. */
  lemma {:induction false} FilesIsolated(states: seq<FS>, ops: seq<Op>, i: nat, j: nat, x: nat)
    requires IsRun(states, ops) && i <= j < |states| && x > ROOT_DIR_SECTOR
    requires forall k :: i <= k <= j ==> x in Live(states[k])
    requires forall k :: i <= k < j ==> x !in Targets(states[k], ops[k])
    ensures InodeAt(states[j].disk, x) == InodeAt(states[i].disk, x)
    ensures FileBytes(states[j], x) == FileBytes(states[i], x)
    decreases j
  {
    hide Inv, NamedOrRemoved, Persisted, Legal, Step, Boot, Live, Occupies, KeepsFile, Targets, Contents, InodeAt;
    hide Reclaims, NoSlotTaken, TakesUsedSlot, MapWritesDone, MapGoesOut, Fits, Formed;
    if i < j {
      FilesIsolated(states, ops, i, j - 1, x);
      FileInvAlways(states, ops, j - 1);
      FileInvAlways(states, ops, j);
      StepKeeps(states[j - 1], ops[j - 1]);
      LiveSizes(states[j - 1], x);
      LiveSizes(states[j], x);
      KeptFile(states[j - 1].disk, states[j].disk, x);
    }
  }

  lemma LiveSizes(s: FS, x: nat)
    requires Inv(s, multiset{}) && x in Live(s)
    ensures Formed(s.disk) && x < |s.disk| && Fits(s.disk, InodeAt(s.disk, x))
  {
    hide Live, RootEntries;
    SpaceSizes(s.disk, s.freeMap, Live(s));
  }

  /** At any point of a run whose steps left no stale free map the device can be mounted
      again: the free map, the names and the bytes of the named files come back. */
  lemma RebootRestores(states: seq<FS>, ops: seq<Op>, i: nat, p: nat, memory: bool)
    requires IsRun(states, ops) && i < |states|
    requires forall k :: 0 <= k < i ==> !LeavesStale(states[k], ops[k])
    ensures Mount(Unmounted(states[i].disk), Some(p), true, memory).Some? <==> MapGoesOut(|states[i].disk|, memory)
    ensures Mount(Unmounted(states[i].disk), Some(p), true, memory).Some? ==>
              var s, s' := states[i], Mount(Unmounted(states[i].disk), Some(p), true, memory).value;
              && Inv(s', multiset{}) && s'.freeMap == s.freeMap && RootEntries(s') == RootEntries(s)
              && forall x :: x in Named(RootEntries(s)) ==> FileBytes(s', x) == FileBytes(s, x)
  {
    hide IsRun, Inv, Persisted, NamedOrRemoved, Mount, RootEntries, Named, Contents, InodeAt, LeavesStale;
    hide NoSlotTaken, MapGoesOut, Live;
    FileInvAlways(states, ops, i);
    PersistedAlways(states, ops, i);
    MountRestores(states[i], Unmounted(states[i].disk), Some(p), true, memory);
  }

  // ----- Names -----

  /** What a step should do to the map of names. */
  ghost predicate NamesStep(s: FS, op: Op, s': FS) {
    var m, m' := D.MapOf(RootEntries(s)), D.MapOf(RootEntries(s'));
    match op
    case CreateOp(name, size, env) =>
      if Create(s, name, size, env).1
      then name !in m && exists x :: x !in Live(s) && m' == m[name := x] && FileBytes(s', x) == Zeros(size)
      else m' == m
    case RemoveOp(name, env) => if Remove(s, name, env).1 then name in m && m' == m - {name} else m' == m
    case _ => m' == m
  }

  /** filesys_create() succeeds although the name exists or its slot is in use, its searches of
      the directory having run out of memory. */
  ghost predicate CreatesWrongly(s: FS, op: Op) {
    op.CreateOp? && Creates(s, op.name, op.size, op.env)
    && (op.name in D.MapOf(RootEntries(s)) || D.SlotUsed(RootEntries(s), op.env.lim2))
  }

  lemma CreateNames(s: FS, name: D.Name, size: nat, env: Env)
    requires Inv(s, multiset{}) && FreshEnv(s, env) && size < LENGTH_LIMIT && D.UniqueNames(RootEntries(s))
    ensures var s', op := Create(s, name, size, env).0, CreateOp(name, size, env);
            D.UniqueNames(RootEntries(s')) && NamesStep(s, op, s') <==> !CreatesWrongly(s, op)
  {
    hide MapGoesOut, Inv, Live, RootEntries, Create, Effect, Reclaims, NamedOrRemoved, Persisted, D.UniqueNames;
    hide D.MapOf, D.Add, D.Slot, Contents, InodeAt;
    CreateKeeps(s, name, size, env);
    var (s', ok) := Create(s, name, size, env);
    if ok {
      var x :| NewFile(s, s', name, size, env, x);
      if name !in D.MapOf(RootEntries(s)) {
        AddedMap(RootEntries(s), name, x, env);
      }
    }
  }

  /** A successful dir_add() inserts into the map if the name is new and the slot free; over a
      used slot the name that was there is lost, or names are no longer unique. */
  lemma AddedMap(es: seq<D.Entry>, name: D.Name, x: nat, env: Env)
    requires D.UniqueNames(es) && D.Add(es, name, x, env.lim1, env.lim2, env.entryMem).1 && name !in D.MapOf(es)
    ensures var es', k := D.Add(es, name, x, env.lim1, env.lim2, env.entryMem).0, D.Slot(es, 0, env.lim2);
            && k < |es|
            && (!es[k].inUse ==> D.UniqueNames(es') && D.MapOf(es') == D.MapOf(es)[name := x])
            && (es[k].inUse && D.UniqueNames(es') ==>
                es[k].name in D.MapOf(es) && es[k].name != name && es[k].name !in D.MapOf(es'))
  {
    hide D.UniqueNames, D.MapOf, D.Find;
    var k := D.Slot(es, 0, env.lim2);
    if es[k].inUse {
      D.Overwrites(es, k, name, x);
    } else {
      D.FillSlot(es, k, name, x);
    }
  }

  lemma RemoveNames(s: FS, name: D.Name, env: Env)
    requires Inv(s, multiset{}) && FreshEnv(s, env) && D.UniqueNames(RootEntries(s))
    ensures var (s', ok) := Remove(s, name, env);
            D.UniqueNames(RootEntries(s')) && NamesStep(s, RemoveOp(name, env), s')
  {
    hide MapGoesOut, Inv, Live, RootEntries, Remove, Effect, Reclaims, NamedOrRemoved, Persisted, D.UniqueNames;
    hide D.MapOf, D.Find, OpenSectors;
    RemoveKeeps(s, name, env);
    var (s', ok) := Remove(s, name, env);
    if ok {
      var k := D.Find(RootEntries(s), name, 0, env.lim1).value;
      D.ClearSlot(RootEntries(s), k);
      FoundInMap(RootEntries(s), k);
    }
  }

  lemma FoundInMap(es: seq<D.Entry>, k: nat)
    requires D.UniqueNames(es) && k < |es| && es[k].inUse
    ensures es[k].name in D.MapOf(es)
  {
    D.MapOfEntries(es);
  }

  lemma OtherNames(s: FS, op: Op)
    requires Inv(s, multiset{}) && Legal(s, op) && !op.CreateOp? && !op.RemoveOp?
    ensures RootEntries(Step(s, op)) == RootEntries(s)
  {
    hide Inv, Live, RootEntries, Effect, Reclaims, NamedOrRemoved, Persisted, Open, ReopenFile, CloseFile;
    hide WriteFile, OpenedAs, FileBytes, Splice;
    match op
    case OpenOp(name, env) => OpenKeeps(s, name, env);
    case ReopenOp(f, env) => ReopenFileKeeps(s, f, env);
    case CloseOp(f, env) => CloseFileKeeps(s, f, env.map1, env.map2);
    case DenyOp(f) => SameDisk(s, Step(s, op));
    case AllowOp(f) => SameDisk(s, Step(s, op));
    case SeekOp(f, pos) => SameDisk(s, Step(s, op));
    case WriteOp(f, data, memory) => WriteKeeps(s, f, data, memory);
  }

  /** Names stay unique in a step, and their map changes as it should, if and only if the step
      is not a create that succeeds wrongly. */
  lemma NamesSoundIff(s: FS, op: Op)
    requires Inv(s, multiset{}) && Legal(s, op) && D.UniqueNames(RootEntries(s))
    ensures D.UniqueNames(RootEntries(Step(s, op))) && NamesStep(s, op, Step(s, op)) <==> !CreatesWrongly(s, op)
  {
    hide Inv, RootEntries, D.UniqueNames, D.MapOf, Create, Remove, Open, ReopenFile, CloseFile, WriteFile;
    hide DenyWrite, AllowWrite, Seek, Live, CreatesWrongly, NamesStep;
    match op
    case CreateOp(name, size, env) => CreateNames(s, name, size, env);
    case RemoveOp(name, env) =>
      RemoveNames(s, name, env);
      NotACreate(s, op);
    case _ =>
      OtherNames(s, op);
      NotACreate(s, op);
      SameNames(s, op);
  }

  lemma NotACreate(s: FS, op: Op)
    requires !op.CreateOp?
    ensures !CreatesWrongly(s, op)
  {
  }

  lemma SameNames(s: FS, op: Op)
    requires !op.CreateOp? && !op.RemoveOp? && RootEntries(Step(s, op)) == RootEntries(s)
    ensures NamesStep(s, op, Step(s, op))
  {
    hide RootEntries, D.MapOf, Step;
  }

  /** Enough memory for both searches rules such a create out. */
  lemma EnoughForSearches(s: FS, op: Op)
    requires Inv(s, multiset{}) && Legal(s, op) && D.UniqueNames(RootEntries(s))
    requires op.CreateOp? ==> op.env.lim1 >= ROOT_ENTRIES && op.env.lim2 >= ROOT_ENTRIES
    ensures !CreatesWrongly(s, op) && !TakesUsedSlot(s, op)
  {
    hide MapGoesOut, Inv, Live, RootEntries, Create, Effect, Reclaims, NamedOrRemoved, Persisted, D.UniqueNames;
    hide D.MapOf, D.Slot, Contents, InodeAt;
    if op.CreateOp? {
      var es, env := RootEntries(s), op.env;
      RootSize(s, multiset{});
      CreateKeeps(s, op.name, op.size, env);
      SearchesComplete(es, op.name, env.lim1, env.lim2);
      D.LookupAgrees(es, op.name);
    }
  }

  /** A search that can read every entry finds what there is. */
  lemma SearchesComplete(es: seq<D.Entry>, name: D.Name, lim1: nat, lim2: nat)
    requires lim1 >= |es| && lim2 >= |es|
    ensures !D.SlotUsed(es, lim2)
    ensures D.Find(es, name, 0, lim1).Some? <==> D.Find(es, name, 0, |es|).Some?
  {
    hide D.Find, D.Slot;
    var r, q := D.Find(es, name, 0, lim1), D.Find(es, name, 0, |es|);
  }

  lemma {:induction false} UniqueNamesAlways(states: seq<FS>, ops: seq<Op>, i: nat)
    requires IsRun(states, ops) && i < |states|
    requires forall k :: 0 <= k < i ==> !CreatesWrongly(states[k], ops[k])
    ensures D.UniqueNames(RootEntries(states[i]))
    ensures i > 0 ==> NamesStep(states[i - 1], ops[i - 1], states[i])
  {
    hide Inv, RootEntries, Boot, D.UniqueNames, NamesStep, NamedOrRemoved, Persisted, CreatesWrongly, NoSlotTaken;
    if i == 0 {
      var disk, env :| Formed(disk) && |disk| >= 2 && Boot(disk, env) == Some(states[0]);
      BootNames(disk, env);
    } else {
      UniqueNamesAlways(states, ops, i - 1);
      FileInvAlways(states, ops, i - 1);
      NamesSoundIff(states[i - 1], ops[i - 1]);
    }
  }

  /** A formatted device has no names. */
  lemma BootNames(disk: Disk, env: BootEnv)
    requires Formed(disk) && |disk| >= 2 && Boot(disk, env).Some?
    ensures D.UniqueNames(RootEntries(Boot(disk, env).value))
  {
    hide Inv, Persisted, NamedOrRemoved, Boot, RootEntries, FirstTaken, MapSize;
    BootSatisfiesInv(disk, env);
  }

  // ----- Failed creates -----

  lemma FailedCreateIn(s: FS, dir: nat, name: D.Name, size: nat, env: Env)
    requires Inv(s, multiset{dir}) && dir in s.inodes && s.inodes[dir].sector == ROOT_DIR_SECTOR
    requires |env.stack| == D.ENTRY_SIZE && size < LENGTH_LIMIT && !CreateIn(s, dir, name, size, env).1
    ensures CreateIn(s, dir, name, size, env).0.freeMap == s.freeMap <==> !(MakesInode(s, size, env) && size > 0)
  {
    hide MapGoesOut, SpaceOk, Inv, Live, RootEntries, Persisted, KeepsFile, Allocate, Release, CreateInode, AddName;
    hide Unowned, D.Add, InodeAt, Occupies, Contents, Formed, Fits, B.AllAre, B.FirstGroup;
    AllocateKeeps(s, multiset{dir}, 1, env.map1);
    var (s1, r) := Allocate(s, 1, env.map1);
    if r.Some? {
      var x := r.value;
      CreateInodeKeeps(s1, multiset{dir}, x, size, env.inodeMem, env.map2);
      var (s2, made) := CreateInode(s1, x, size, env.inodeMem, env.map2);
      assert made <==> MakesInode(s, size, env);
      if made {
        CreatedHasRoom(s1, s2, x, size);
        AddNameKeeps(s2, multiset{dir}, dir, name, x, env);
        var s3 := AddName(s2, dir, name, x, env).0;
        StillUnowned(s2, s3, x);
        ReleaseKeeps(s3, multiset{dir}, x, 1, env.map3);
        LeftoverMarks(s.freeMap, x, s1.freeMap, InodeAt(s2.disk, x).start, SectorsFor(size));
      } else {
        ReleaseKeeps(s2, multiset{dir}, x, 1, env.map3);
        B.FlipFlop(s.freeMap, x, 1, false);
      }
    }
  }

  /** A failed filesys_create() gives its inode's sector back but not its data sectors: it
      leaves the free map as it was exactly when it made no inode or the file was to be
      empty. */
  lemma FailedCreateLeaksIff(s: FS, name: D.Name, size: nat, env: Env)
    requires Inv(s, multiset{}) && FreshEnv(s, env) && size < LENGTH_LIMIT && !Create(s, name, size, env).1
    ensures Create(s, name, size, env).0.freeMap == s.freeMap <==>
            !(RootOpens(s, env) && MakesInode(s, size, env) && size > 0)
  {
    hide MapGoesOut, Inv, Live, RootEntries, Named, CloseInode, OpenRoot, CreateIn, Persisted, NamedOrRemoved;
    hide OpenSectors, RoomFor, Spares, Grows, NewFile, RemovedBefore;
    OpenRootKeeps(s, env);
    RootOpensIff(s, env);
    var (s1, dir) := OpenRoot(s, env);
    if dir.Some? {
      FailedCreateIn(s1, dir.value, name, size, env);
      CreateInKeeps(s1, dir.value, name, size, env);
      assert multiset{} + multiset{dir.value} == multiset{dir.value};
      CloseNamed(CreateIn(s1, dir.value, name, size, env).0, multiset{}, dir.value, env.map1, env.map2);
    }
  }

  lemma LeftoverMarks(map0: seq<bool>, x: nat, map1: seq<bool>, start: nat, n: nat)
    requires x < |map0| && B.AllAre(map0, x, 1, false) && map1 == B.SetRange(map0, x, 1, true)
             && B.AllAre(map1, start, n, false)
    ensures B.SetRange(B.SetRange(map1, start, n, true), x, 1, false) == map0 <==> n == 0
  {
    var map' := B.SetRange(B.SetRange(map1, start, n, true), x, 1, false);
    if n > 0 {
      assert map1[x] && start != x;
      assert map'[start] && !map0[start];
    }
  }

  /** An invalid name leaks: dir_add() refuses it after the inode was made. */
  lemma InvalidNameLeaks(s: FS, name: D.Name, size: nat, env: Env)
    requires Inv(s, multiset{}) && FreshEnv(s, env) && 0 < size < LENGTH_LIMIT && !D.ValidName(name)
    requires RootOpens(s, env) && MakesInode(s, size, env)
    ensures !Create(s, name, size, env).1 && Create(s, name, size, env).0.freeMap != s.freeMap
  {
    hide MapGoesOut, Inv, Live, RootEntries, Create, Effect, Reclaims, NamedOrRemoved, Persisted, Contents, InodeAt;
    hide RoomFor, RootOpens, MakesInode;
    CreateKeeps(s, name, size, env);
    forall x ensures !NewFile(s, Create(s, name, size, env).0, name, size, env, x) {
      InvalidNotAdded(RootEntries(s), name, x, env);
    }
    FailedCreateLeaksIff(s, name, size, env);
  }

  lemma InvalidNotAdded(es: seq<D.Entry>, name: D.Name, x: nat, env: Env)
    requires !D.ValidName(name)
    ensures !D.Add(es, name, x, env.lim1, env.lim2, env.entryMem).1
  {
  }

  // ----- Creates on a fresh device, short of memory -----

  const NO_NAME: D.Name := []
  const NAME_A: D.Name := [97]
  const NAME_B: D.Name := [98]

  /** All allocations of filesys_create() but those of the two searches succeed. */
  ghost predicate AllButSearches(s: FS, env: Env) {
    && FreshEnv(s, env) && env.rootPtr.Some? && env.dirMem && env.inodeMem && env.entryMem
    && env.map1 && env.map2 && env.map3
  }

  /** What an empty file in entry k does to the directory and the free map. */
  lemma EmptyFileAdded(s: FS, k: nat, name: D.Name, env: Env, taken: nat) returns (x: nat)
    requires Inv(s, multiset{}) && AllButSearches(s, env) && D.ValidName(name)
    requires D.Find(RootEntries(s), name, 0, env.lim1).None?
             && D.Slot(RootEntries(s), 0, env.lim2) == k < |RootEntries(s)|
    requires s.freeMap == FirstTaken(|s.freeMap|, taken) && taken < |s.freeMap|
    ensures var (s', ok) := Create(s, name, 0, env);
            && ok && Inv(s', multiset{}) && s'.freeMap == FirstTaken(|s.freeMap|, taken + 1) && |s'.disk| == |s.disk|
            && RootEntries(s') == RootEntries(s)[k := D.Entry(x, name, true)]
  {
    hide Inv, RootEntries, Create, D.Find, D.Slot, Live, Reclaims, NamedOrRemoved, Persisted, FirstTaken;
    hide OpenSectors, KeepsFile;
    hide Occupies, Contents, InodeAt, B.FirstGroup, B.SetRange;
    FirstFree(|s.freeMap|, taken, 1);
    B.EmptyGroup(FirstTaken(|s.freeMap|, taken + 1), 0, false);
    EmptyRange(FirstTaken(|s.freeMap|, taken + 1), 0);
    assert SectorsFor(0) == 0;
    CreateKeeps(s, name, 0, env);
    CreateTakes(s, name, 0, env);
    var s' := Create(s, name, 0, env).0;
    x :| NewFile(s, s', name, 0, env, x);
    AddTakesSlot(RootEntries(s), name, x, env);
  }

  lemma EmptyRange(marks: seq<bool>, k: nat)
    requires k <= |marks|
    ensures B.SetRange(marks, k, 0, true) == marks
  {
  }

  /** The state after filesys_init() formatted a device of six sectors. */
  ghost predicate SixSectors(s: FS) {
    exists disk, boot :: Formed(disk) && |disk| == 6 && Boot(disk, boot) == Some(s)
  }

  lemma SixSectorsFacts(s: FS)
    requires SixSectors(s)
    ensures Inv(s, multiset{}) && Persisted(s) && |s.disk| == 6 && s.freeMap == FirstTaken(6, 4)
    ensures |RootEntries(s)| == ROOT_ENTRIES && forall k :: 0 <= k < ROOT_ENTRIES ==> !RootEntries(s)[k].inUse
  {
    hide Inv, Persisted, NamedOrRemoved, Boot, RootEntries, FirstTaken;
    var disk, boot :| Formed(disk) && |disk| == 6 && Boot(disk, boot) == Some(s);
    BootSatisfiesInv(disk, boot);
    RootSize(s, multiset{});
    assert MapSize(6) == 4 && SectorsFor(4) == 1;
  }

  lemma FirstName(s: FS, env: Env) returns (x: nat)
    requires SixSectors(s) && AllButSearches(s, env)
    ensures var (s1, ok) := Create(s, NAME_A, 0, env);
            && ok && Inv(s1, multiset{}) && |s1.freeMap| == 6 && s1.freeMap == FirstTaken(6, 5)
            && |RootEntries(s1)| == ROOT_ENTRIES && RootEntries(s1)[0] == D.Entry(x, NAME_A, true)
            && forall k :: 1 <= k < ROOT_ENTRIES ==> !RootEntries(s1)[k].inUse
  {
    hide Inv, Persisted, Create, RootEntries, FirstTaken, SixSectors, AllButSearches;
    SixSectorsFacts(s);
    InvSizes(s);
    x := EmptyFileAdded(s, 0, NAME_A, env, 4);
  }

  lemma InvSizes(s: FS)
    requires Inv(s, multiset{})
    ensures |s.freeMap| == |s.disk|
  {
    hide Live, RootEntries;
    SpaceSizes(s.disk, s.freeMap, Live(s));
  }

  ghost predicate OnlyName(es: seq<D.Entry>, name: D.Name) {
    D.MapOf(es).Keys == {name}
  }

  /** A search for a slot that gets no buffer ends at the first entry: the create of "b" takes
      it from "a". */
  lemma NameLost(s: FS, s1: FS, env1: Env, env2: Env)
    requires SixSectors(s) && AllButSearches(s, env1) && s1 == Create(s, NAME_A, 0, env1).0
    requires AllButSearches(s1, env2) && env2.lim2 == 0
    ensures var (s2, ok) := Create(s1, NAME_B, 0, env2);
            && IsRun([s, s1, s2], [CreateOp(NAME_A, 0, env1), CreateOp(NAME_B, 0, env2)]) && ok
            && OnlyName(RootEntries(s1), NAME_A) && OnlyName(RootEntries(s2), NAME_B)
  {
    hide Inv, Create, RootEntries, FirstTaken, SixSectors, AllButSearches, OnlyName, IsRun;
    var x := FirstName(s, env1);
    var y := EmptyFileAdded(s1, 0, NAME_B, env2, 5);
    OneName(RootEntries(s1), NAME_A);
    OneName(RootEntries(Create(s1, NAME_B, 0, env2).0), NAME_B);
    TwoCreatesRun(s, s1, NAME_B, env1, env2);
  }

  /** A search for the name that gets no buffer misses it: "a" is there twice. */
  lemma NameTwice(s: FS, s1: FS, env1: Env, env2: Env)
    requires SixSectors(s) && AllButSearches(s, env1) && s1 == Create(s, NAME_A, 0, env1).0
    requires AllButSearches(s1, env2) && env2.lim1 == 0 && env2.lim2 >= 2
    ensures var (s2, ok) := Create(s1, NAME_A, 0, env2);
            && IsRun([s, s1, s2], [CreateOp(NAME_A, 0, env1), CreateOp(NAME_A, 0, env2)]) && ok
            && D.UniqueNames(RootEntries(s1)) && !D.UniqueNames(RootEntries(s2))
  {
    hide Inv, Create, RootEntries, FirstTaken, SixSectors, AllButSearches, IsRun;
    var x := FirstName(s, env1);
    var y := EmptyFileAdded(s1, 1, NAME_A, env2, 5);
    var es := RootEntries(Create(s1, NAME_A, 0, env2).0);
    assert es[0].inUse && es[1].inUse && es[0].name == es[1].name;
    TwoCreatesRun(s, s1, NAME_A, env1, env2);
  }

  lemma TwoCreatesRun(s: FS, s1: FS, name: D.Name, env1: Env, env2: Env)
    requires SixSectors(s) && AllButSearches(s, env1) && s1 == Create(s, NAME_A, 0, env1).0 && AllButSearches(s1, env2)
    ensures IsRun([s, s1, Create(s1, name, 0, env2).0], [CreateOp(NAME_A, 0, env1), CreateOp(name, 0, env2)])
  {
    hide Create, Boot, FreshEnv;
    var disk, boot :| Formed(disk) && |disk| == 6 && Boot(disk, boot) == Some(s);
    assert Formed(disk) && |disk| >= 2 && Boot(disk, boot) == Some(s);
  }

  lemma OneName(es: seq<D.Entry>, name: D.Name)
    requires |es| > 0 && es[0].inUse && es[0].name == name && forall k :: 1 <= k < |es| ==> !es[k].inUse
    ensures D.UniqueNames(es) && OnlyName(es, name)
  {
    hide D.MapOf;
    D.MapOfEntries(es);
    assert name in D.MapOf(es);
    forall n | n in D.MapOf(es) ensures n == name {
      var k :| 0 <= k < |es| && es[k].inUse && es[k].name == n;
    }
  }

  /** A create that finds no memory for its inode and whose give-back is cut off on the device
      leaves a sector marked there that is free in memory. */
  lemma CreateGoesStale(s: FS, name: D.Name, env: Env)
    requires SixSectors(s) && FreshEnv(s, env) && env.rootPtr.Some? && env.dirMem
    requires env.map1 && !env.inodeMem && !env.map3
    ensures var s' := Create(s, name, 0, env).0;
            s'.freeMap == s.freeMap && Persisted(s) && !Persisted(s')
  {
    hide Inv, Persisted, Create, RootEntries, FreshEnv, FirstTaken, OpenSectors, SixSectors;
    SixSectorsFacts(s);
    FirstFree(6, 4, 1);
    CreateSucceedsIff(s, name, 0, env);
    FailedCreateLeaksIff(s, name, 0, env);
    PersistedIff(s, CreateOp(name, 0, env));
  }

  /** Creating a one-byte file without a name fails and takes a sector away. */
  lemma CreateLeaks(s: FS, env: Env)
    requires SixSectors(s) && FreshEnv(s, env) && env.rootPtr.Some? && env.dirMem
    requires env.inodeMem && env.map1 && env.map2
    ensures var (s', ok) := Create(s, NO_NAME, 1, env);
            !ok && s.freeMap == [true, true, true, true, false, false] && s'.freeMap != s.freeMap
  {
    hide Inv, Persisted, Create, RootEntries, FreshEnv, SixSectors;
    SixSectorsFacts(s);
    assert FirstTaken(6, 4) == [true, true, true, true, false, false];
    FirstFree(6, 4, 1);
    FirstFree(6, 5, 1);
    assert SectorsFor(1) == 1;
    InvalidNameLeaks(s, NO_NAME, 1, env);
  }
}
