/** The file system stack above the block device: free map, inode table, files and the root
    directory (filesys/free-map.c, inode.c, file.c, filesys.c).  Each operation is a function
    from state to state; memory allocations that may fail are parameters.  The functions are
    total: outside the states that `FileInvariant.Inv` describes they leave the state alone. */
module FileSystem {

  import opened Lists
  import opened Blocks
  import opened InodeData
  import D = Directory
  import B = Bitmap

  const FREE_MAP_SECTOR: nat := 0
  const ROOT_DIR_SECTOR: nat := 1
  const ROOT_ENTRIES: nat := 16
  /** The handle that free-map.c keeps for itself. */
  const FREE_MAP_FILE: nat := 0
  const LENGTH_LIMIT := 0x8000_0000

  /** `struct inode`; `data` is the copy of the on-disk inode. */
  datatype Inode = Inode(sector: nat, openCnt: int, removed: bool, denyCnt: int, data: InodeDisk)

  /** `struct file`; `inode` is a pointer into the table of open inodes. */
  datatype File = File(inode: nat, pos: nat, deny: bool)

  /** `list` is open_inodes. */
  datatype FS = FS(disk: Disk, freeMap: seq<bool>, list: seq<nat>, inodes: map<nat, Inode>, files: map<nat, File>)

  /** The on-disk inode in a sector. */
  function InodeAt(disk: Disk, x: nat): InodeDisk {
    if x < |disk| && |disk[x]| == SECTOR_SIZE then DecodeInode(disk[x]) else InodeDisk(0, 0)
  }

  // ----- free-map.c -----

  function BitValue(b: seq<bool>, k: nat): nat {
    if k < |b| && b[k] then 1 else 0
  }

  /** The words of the bitmap as bytes. */
  function PackByte(b: seq<bool>, i: nat): Byte {
    BitValue(b, 8 * i) + 2 * BitValue(b, 8 * i + 1) + 4 * BitValue(b, 8 * i + 2) + 8 * BitValue(b, 8 * i + 3)
    + 16 * BitValue(b, 8 * i + 4) + 32 * BitValue(b, 8 * i + 5) + 64 * BitValue(b, 8 * i + 6)
      + 128 * BitValue(b, 8 * i + 7)
  }

  /** bitmap_file_size(). */
  function MapSize(bits: nat): nat {
    4 * B.ElemCnt(bits)
  }

  function Packed(b: seq<bool>): (r: seq<Byte>)
    ensures |r| == MapSize(|b|)
  {
    seq(MapSize(|b|), i requires 0 <= i => PackByte(b, i))
  }

  predicate MapFileOpen(s: FS) {
    FREE_MAP_FILE in s.files && s.files[FREE_MAP_FILE].inode in s.inodes
  }

  function MapInode(s: FS): Inode
    requires MapFileOpen(s)
  {
    s.inodes[s.files[FREE_MAP_FILE].inode]
  }

  /** The bytes that bitmap_write() moves. */
  function MapMoved(s: FS, memory: bool): nat
    requires MapFileOpen(s)
  {
    Moved(MapInode(s).data.length, 0, MapSize(|s.freeMap|), memory)
  }

  ghost predicate Writable(s: FS) {
    Formed(s.disk) && MapFileOpen(s) && MapInode(s).denyCnt == 0
  }

  /** bitmap_write() of the free map into its file. */
  ghost function WriteMap(s: FS, memory: bool): FS {
    if Writable(s)
    then s.(disk := WriteBytes(s.disk, MapInode(s).data.start, 0, Packed(s.freeMap)[..MapMoved(s, memory)]))
    else s
  }

  ghost predicate MapWritten(s: FS, memory: bool) {
    Writable(s) && MapMoved(s, memory) == MapSize(|s.freeMap|)
  }

  function SetBits(b: seq<bool>, start: nat, cnt: nat, value: bool): (r: seq<bool>)
    ensures |r| == |b|
  {
    if start + cnt <= |b| then B.SetRange(b, start, cnt, value) else b
  }

  /** Whether a write of the free map of a device with n sectors is complete: only a map that
      does not end with a whole sector needs a bounce buffer. */
  predicate MapGoesOut(n: nat, memory: bool) {
    memory || MapSize(n) % SECTOR_SIZE == 0
  }

  /** free_map_allocate(): the first sufficient run of free sectors; undone when the free map
      cannot be written out. */
  ghost function Allocate(s: FS, cnt: nat, memory: bool): (r: (FS, Option<nat>)) {
    match B.FirstGroup(s.freeMap, 0, cnt, false)
    case None => (s, None)
    case Some(i) =>
      var s1 := s.(freeMap := SetBits(s.freeMap, i, cnt, true));
      if FREE_MAP_FILE !in s.files then (s1, Some(i))
      else
        var s2 := WriteMap(s1, memory);
        if MapWritten(s1, memory) then (s2, Some(i)) else (s2.(freeMap := SetBits(s1.freeMap, i, cnt, false)), None)
  }

  /** free_map_release(). */
  ghost function Release(s: FS, start: nat, cnt: nat, memory: bool): FS {
    WriteMap(s.(freeMap := SetBits(s.freeMap, start, cnt, false)), memory)
  }

  // ----- inode.c -----

  function ZeroSectors(disk: Disk, start: nat, cnt: nat): (r: Disk)
    ensures |r| == |disk|
    ensures forall b :: 0 <= b < |disk| ==> r[b] == if start <= b < start + cnt then Zeros(SECTOR_SIZE) else disk[b]
  {
    seq(|disk|, b requires 0 <= b < |disk| => if start <= b < start + cnt then Zeros(SECTOR_SIZE) else disk[b])
  }

  /** inode_create(); `memory` is the calloc(), `mapMemory` the free map's bounce buffer. */
  ghost function CreateInode(s: FS, x: nat, length: nat, memory: bool, mapMemory: bool): (r: (FS, bool)) {
    if !memory then (s, false)
    else
      var (s1, start) := Allocate(s, SectorsFor(length), mapMemory);
      if start.None? || x >= |s1.disk| || start.value >= WORD_LIMIT || length >= LENGTH_LIMIT then (s1, false)
      else
        var disk := s1.disk[x := EncodeInode(InodeDisk(start.value, length))];
        (s1.(disk := ZeroSectors(disk, start.value, SectorsFor(length))), true)
  }

  /** The search of inode_open(). */
  function FindOpen(list: seq<nat>, inodes: map<nat, Inode>, x: nat): (r: Option<nat>)
    ensures r.Some? ==> r.value in list && r.value in inodes && inodes[r.value].sector == x
    ensures r.None? ==> forall p :: p in list && p in inodes ==> inodes[p].sector != x
  {
    if list == [] then None
    else if list[0] in inodes && inodes[list[0]].sector == x then Some(list[0])
    else FindOpen(list[1..], inodes, x)
  }

  /** inode_reopen(). */
  function Reopen(s: FS, p: nat): FS {
    if p in s.inodes then s.(inodes := s.inodes[p := s.inodes[p].(openCnt := s.inodes[p].openCnt + 1)]) else s
  }

  /** inode_open(); `mem` is the result of malloc(). */
  function OpenInode(s: FS, x: nat, mem: Option<nat>): (r: (FS, Option<nat>)) {
    match FindOpen(s.list, s.inodes, x)
    case Some(p) => (Reopen(s, p), Some(p))
    case None =>
      match mem
      case None => (s, None)
      case Some(p) => (s.(list := [p] + s.list, inodes := s.inodes[p := Inode(x, 1, false, 0, InodeAt(s.disk, x))]),
                       Some(p))
  }

  function Without(list: seq<nat>, p: nat): (r: seq<nat>) {
    Filter(list, q => q != p)
  }

  /** inode_close(); the two releases write the free map out with `mem1` and `mem2`. */
  ghost function CloseInode(s: FS, p: nat, mem1: bool, mem2: bool): FS {
    if p !in s.inodes then s
    else
      var i := s.inodes[p];
      if i.openCnt != 1 then s.(inodes := s.inodes[p := i.(openCnt := i.openCnt - 1)])
      else
        var s1 := s.(list := Without(s.list, p), inodes := s.inodes - {p});
        if !i.removed then s1
        else Release(Release(s1, i.sector, 1, mem1), i.data.start, SectorsFor(i.data.length), mem2)
  }

  function WithInode(s: FS, p: nat, i: Inode): FS {
    s.(inodes := s.inodes[p := i])
  }

  /** inode_remove(). */
  function RemoveInode(s: FS, p: nat): FS {
    if p in s.inodes then WithInode(s, p, s.inodes[p].(removed := true)) else s
  }

  // ----- file.c -----

  /** file_open(), which takes over the reference to the inode; `mem` is the result of
      calloc(). */
  ghost function OpenFile(s: FS, p: nat, mem: Option<nat>, mem1: bool, mem2: bool): (r: (FS, Option<nat>)) {
    match mem
    case Some(f) => (s.(files := s.files[f := File(p, 0, false)]), Some(f))
    case None => (CloseInode(s, p, mem1, mem2), None)
  }

  /** file_deny_write(). */
  function DenyWrite(s: FS, f: nat): FS {
    if f !in s.files || s.files[f].deny || s.files[f].inode !in s.inodes then s
    else
      var p := s.files[f].inode;
      WithInode(s, p, s.inodes[p].(denyCnt := s.inodes[p].denyCnt + 1))
        .(files := s.files[f := s.files[f].(deny := true)])
  }

  /** file_allow_write(). */
  function AllowWrite(s: FS, f: nat): FS {
    if f !in s.files || !s.files[f].deny || s.files[f].inode !in s.inodes then s
    else
      var p := s.files[f].inode;
      WithInode(s, p, s.inodes[p].(denyCnt := s.inodes[p].denyCnt - 1))
        .(files := s.files[f := s.files[f].(deny := false)])
  }

  /** file_close(). */
  ghost function CloseFile(s: FS, f: nat, mem1: bool, mem2: bool): FS {
    if f !in s.files then s
    else
      var s1 := AllowWrite(s, f);
      CloseInode(s1.(files := s1.files - {f}), s.files[f].inode, mem1, mem2)
  }

  /** The bytes that file_write() moves. */
  function WriteCount(s: FS, f: nat, size: nat, memory: bool): (n: nat)
    ensures n <= size
  {
    if f !in s.files || s.files[f].inode !in s.inodes || s.inodes[s.files[f].inode].denyCnt != 0 then 0
    else Moved(s.inodes[s.files[f].inode].data.length, s.files[f].pos, size, memory)
  }

  /** file_write(). */
  ghost function WriteFile(s: FS, f: nat, data: seq<Byte>, memory: bool): FS {
    if f !in s.files || s.files[f].inode !in s.inodes || !Formed(s.disk) then s
    else
      var file, i, n := s.files[f], s.inodes[s.files[f].inode], WriteCount(s, f, |data|, memory);
      s.(disk := WriteBytes(s.disk, i.data.start, file.pos, data[..n]),
         files := s.files[f := file.(pos := file.pos + n)])
  }

  /** file_seek(); the advance of file_read() is one too. */
  function Seek(s: FS, f: nat, pos: nat): FS {
    if f in s.files then s.(files := s.files[f := s.files[f].(pos := pos)]) else s
  }

  // ----- filesys.c -----

  /** What the allocations of one operation return. */
  datatype Env = Env(
    rootPtr: Option<nat>,    // inode_open() of the root directory
    dirMem: bool,            // dir_open()
    ptr: Option<nat>,        // inode_open() of the file
    fileId: Option<nat>,     // file_open()
    lim1: nat,               // reads of the first directory search that get a buffer
    lim2: nat,               // reads of the second
    entryMem: bool,          // write of the directory entry
    inodeMem: bool,          // inode_create()
    map1: bool,              // writes of the free map
    map2: bool,
    map3: bool,
    stack: seq<Byte>)        // contents of an uninitialised directory entry

  /** dir_open_root(). */
  ghost function OpenRoot(s: FS, env: Env): (r: (FS, Option<nat>)) {
    var (s1, p) := OpenInode(s, ROOT_DIR_SECTOR, env.rootPtr);
    if p.Some? && env.dirMem then (s1, p)
    else if p.Some? then (CloseInode(s1, p.value, env.map1, env.map2), None)
    else (s1, None)
  }

  /** The entries of the directory file with inode `d`. */
  ghost function EntriesOf(disk: Disk, d: InodeDisk): seq<D.Entry> {
    if Formed(disk) && Fits(disk, d) then D.Entries(Contents(disk, d)) else []
  }

  ghost function RootEntries(s: FS): seq<D.Entry> {
    EntriesOf(s.disk, InodeAt(s.disk, ROOT_DIR_SECTOR))
  }

  /** dir_add() on the directory whose inode is at `p`. */
  ghost function AddName(s: FS, p: nat, name: D.Name, x: nat, env: Env): (r: (FS, bool)) {
    if p in s.inodes && Formed(s.disk) && Fits(s.disk, s.inodes[p].data) && x < WORD_LIMIT
        && |env.stack| == D.ENTRY_SIZE then
      var d := s.inodes[p].data;
      (s.(disk := D.AddToDisk(s.disk, d, name, x, env.lim1, env.lim2, env.entryMem, env.stack)),
       D.Add(EntriesOf(s.disk, d), name, x, env.lim1, env.lim2, env.entryMem).1)
    else (s, false)
  }

  /** lookup() in the directory whose inode is at `p`. */
  ghost function LookupName(s: FS, p: nat, name: D.Name, limit: nat): Option<nat> {
    if p in s.inodes then D.Find(EntriesOf(s.disk, s.inodes[p].data), name, 0, limit) else None
  }

  ghost function EntrySector(s: FS, p: nat, k: nat): nat {
    if p in s.inodes && k < |EntriesOf(s.disk, s.inodes[p].data)|
    then EntriesOf(s.disk, s.inodes[p].data)[k].sector
    else 0
  }

  ghost function EraseEntry(s: FS, p: nat, k: nat, memory: bool): FS {
    if p in s.inodes && k < |EntriesOf(s.disk, s.inodes[p].data)|
    then s.(disk := D.EraseOnDisk(s.disk, s.inodes[p].data, k, memory))
    else s
  }

  /** The steps of filesys_create() after the directory is open at `dir`. */
  ghost function CreateIn(s: FS, dir: nat, name: D.Name, size: nat, env: Env): (r: (FS, bool)) {
    var (s1, x) := Allocate(s, 1, env.map1);
    if x.None? then (s1, false)
    else
      var (s2, made) := CreateInode(s1, x.value, size, env.inodeMem, env.map2);
      if !made then (Release(s2, x.value, 1, env.map3), false)
      else
        var (s3, added) := AddName(s2, dir, name, x.value, env);
        if added then (s3, true) else (Release(s3, x.value, 1, env.map3), false)
  }

  /** filesys_create(). */
  ghost function Create(s: FS, name: D.Name, size: nat, env: Env): (r: (FS, bool)) {
    var (s1, dir) := OpenRoot(s, env);
    if dir.None? then (s1, false)
    else
      var (s2, ok) := CreateIn(s1, dir.value, name, size, env);
      (CloseInode(s2, dir.value, env.map1, env.map2), ok)
  }

  /** dir_lookup(): finds the name and opens its inode. */
  ghost function LookupAndOpen(s: FS, dir: nat, name: D.Name, env: Env): (r: (FS, Option<nat>)) {
    var k := LookupName(s, dir, name, env.lim1);
    if k.None? then (s, None) else OpenInode(s, EntrySector(s, dir, k.value), env.ptr)
  }

  /** filesys_open(). */
  ghost function Open(s: FS, name: D.Name, env: Env): (r: (FS, Option<nat>)) {
    var (s1, dir) := OpenRoot(s, env);
    if dir.None? then (s1, None)
    else
      var (s2, p) := LookupAndOpen(s1, dir.value, name, env);
      var s3 := CloseInode(s2, dir.value, env.map1, env.map2);
      if p.None? then (s3, None) else OpenFile(s3, p.value, env.fileId, env.map1, env.map2)
  }

  /** dir_remove(). */
  ghost function RemoveName(s: FS, dir: nat, name: D.Name, env: Env): (r: (FS, bool)) {
    var k := LookupName(s, dir, name, env.lim1);
    if k.None? then (s, false)
    else
      var (s1, p) := OpenInode(s, EntrySector(s, dir, k.value), env.ptr);
      if p.None? then (s1, false)
      else
        var s2 := EraseEntry(s1, dir, k.value, env.entryMem);
        if !env.entryMem then (CloseInode(s2, p.value, env.map1, env.map2), false)
        else (CloseInode(RemoveInode(s2, p.value), p.value, env.map1, env.map2), true)
  }

  /** filesys_remove(). */
  ghost function Remove(s: FS, name: D.Name, env: Env): (r: (FS, bool)) {
    var (s1, dir) := OpenRoot(s, env);
    if dir.None? then (s1, false)
    else
      var (s2, ok) := RemoveName(s1, dir.value, name, env);
      (CloseInode(s2, dir.value, env.map1, env.map2), ok)
  }

  /** file_reopen(). */
  ghost function ReopenFile(s: FS, f: nat, env: Env): (r: (FS, Option<nat>)) {
    if f in s.files
    then OpenFile(Reopen(s, s.files[f].inode), s.files[f].inode, env.fileId, env.map1, env.map2)
    else (s, None)
  }

  // ----- Runs -----

  datatype Op =
    | CreateOp(name: D.Name, size: nat, env: Env)
    | OpenOp(name: D.Name, env: Env)
    | RemoveOp(name: D.Name, env: Env)
    | ReopenOp(f: nat, env: Env)
    | CloseOp(f: nat, env: Env)
    | DenyOp(f: nat)
    | AllowOp(f: nat)
    | SeekOp(f: nat, pos: nat)
    | WriteOp(f: nat, data: seq<Byte>, memory: bool)

  /** malloc() returns memory that is not in use. */
  ghost predicate FreshEnv(s: FS, env: Env) {
    && (env.rootPtr.Some? ==> env.rootPtr.value !in s.inodes)
    && (env.ptr.Some? ==> env.ptr.value !in s.inodes)
    && (env.rootPtr.Some? && env.ptr.Some? ==> env.rootPtr != env.ptr)
    && (env.fileId.Some? ==> env.fileId.value !in s.files && env.fileId.value != FREE_MAP_FILE)
    && |env.stack| == D.ENTRY_SIZE
  }

  /** What callers must respect: handles are open and not the free map's own, and sizes are
      non-negative `off_t` values that can be rounded up to whole sectors. */
  ghost predicate Legal(s: FS, op: Op) {
    match op
    case CreateOp(_, size, env) => FreshEnv(s, env) && size + SECTOR_SIZE - 1 < LENGTH_LIMIT
    case OpenOp(_, env) => FreshEnv(s, env)
    case RemoveOp(_, env) => FreshEnv(s, env)
    case ReopenOp(f, env) => FreshEnv(s, env) && f in s.files && f != FREE_MAP_FILE
    case CloseOp(f, env) => f in s.files && f != FREE_MAP_FILE
    case DenyOp(f) => f in s.files && f != FREE_MAP_FILE
    case AllowOp(f) => f in s.files && f != FREE_MAP_FILE
    case SeekOp(f, _) => f in s.files && f != FREE_MAP_FILE
    case WriteOp(f, _, _) => f in s.files && f != FREE_MAP_FILE
  }

  ghost function Step(s: FS, op: Op): FS {
    match op
    case CreateOp(name, size, env) => Create(s, name, size, env).0
    case OpenOp(name, env) => Open(s, name, env).0
    case RemoveOp(name, env) => Remove(s, name, env).0
    case ReopenOp(f, env) => ReopenFile(s, f, env).0
    case CloseOp(f, env) => CloseFile(s, f, env.map1, env.map2)
    case DenyOp(f) => DenyWrite(s, f)
    case AllowOp(f) => AllowWrite(s, f)
    case SeekOp(f, pos) => Seek(s, f, pos)
    case WriteOp(f, data, memory) => WriteFile(s, f, data, memory)
  }
}
