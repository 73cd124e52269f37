/** The file system's device as the inode layer sees it: an array of 512-byte sectors,
    little-endian words, on-disk inodes and the flat byte sequence that an extent of sectors
    holds (filesys/inode.c). */
module Blocks {

  import opened Lists
  import A = Arithmetic

  const SECTOR_SIZE := 512
  const INODE_MAGIC := 0x494e4f44
  const WORD_LIMIT := 0x1_0000_0000

  type Byte = x: int | 0 <= x < 256

  type Disk = seq<seq<Byte>>

  /** The part of an on-disk inode that is used: `struct inode_disk`. */
  datatype InodeDisk = InodeDisk(start: nat, length: nat)

  ghost predicate Formed(disk: Disk) {
    |disk| < WORD_LIMIT && forall b :: 0 <= b < |disk| ==> |disk[b]| == SECTOR_SIZE
  }

  // ----- Words -----

  function Encode32(n: nat): (r: seq<Byte>)
    requires n < WORD_LIMIT
    ensures |r| == 4
  {
    [n % 256, n / 256 % 256, n / 65536 % 256, n / 16777216]
  }

  function Decode32(b: seq<Byte>): nat
    requires |b| >= 4
  {
    (b[0] as int) + 256 * (b[1] as int) + 65536 * (b[2] as int) + 16777216 * (b[3] as int)
  }

  lemma FourDigits(n: nat)
    ensures n == n % 256 + 256 * (n / 256 % 256) + 65536 * (n / 65536 % 256) + 16777216 * (n / 16777216)
  {
    var q := n / 256;
    var r := q / 256;
    A.DivDiv(n, 256, 256);
    A.DivDiv(n, 65536, 256);
    assert n / 65536 == r && n / 16777216 == r / 256;
    assert n == n % 256 + 256 * q && q == q % 256 + 256 * r && r == r % 256 + 256 * (r / 256);
  }

  lemma DecodeBytes(b: seq<Byte>, b0: Byte, b1: Byte, b2: Byte, b3: Byte, rest: seq<Byte>)
    requires b == [b0, b1, b2, b3] + rest
    ensures Decode32(b) == (b0 as int) + 256 * (b1 as int) + 65536 * (b2 as int) + 16777216 * (b3 as int)
  {
  }

  lemma WordRoundTrip(n: nat, rest: seq<Byte>)
    requires n < WORD_LIMIT
    ensures Decode32(Encode32(n) + rest) == n
  {
    hide Decode32;
    FourDigits(n);
    DecodeBytes(Encode32(n) + rest, n % 256, n / 256 % 256, n / 65536 % 256, n / 16777216, rest);
  }

  // ----- Inodes on disk -----

  function Zeros(n: nat): (r: seq<Byte>)
    ensures |r| == n && forall i :: 0 <= i < n ==> r[i] == 0
  {
    seq(n, i => 0)
  }

  function EncodeInode(d: InodeDisk): (r: seq<Byte>)
    requires d.start < WORD_LIMIT && d.length < WORD_LIMIT
    ensures |r| == SECTOR_SIZE
  {
    Encode32(d.start) + Encode32(d.length) + Encode32(INODE_MAGIC) + Zeros(500)
  }

  function DecodeInode(block: seq<Byte>): InodeDisk
    requires |block| == SECTOR_SIZE
  {
    InodeDisk(Decode32(block), Decode32(block[4..]))
  }

  lemma InodeRoundTrip(d: InodeDisk)
    requires d.start < WORD_LIMIT && d.length < WORD_LIMIT
    ensures DecodeInode(EncodeInode(d)) == d
  {
    var tail := Encode32(INODE_MAGIC) + Zeros(500);
    var block := EncodeInode(d);
    assert block == Encode32(d.start) + (Encode32(d.length) + tail);
    assert block[4..] == Encode32(d.length) + tail;
    WordRoundTrip(d.start, Encode32(d.length) + tail);
    WordRoundTrip(d.length, tail);
  }

  // ----- Extents -----

  /** bytes_to_sectors(). */
  function SectorsFor(length: nat): nat {
    (length + SECTOR_SIZE - 1) / SECTOR_SIZE
  }

  predicate InExtent(d: InodeDisk, b: nat) {
    d.start <= b < d.start + SectorsFor(d.length)
  }

  predicate Fits(disk: Disk, d: InodeDisk) {
    d.start + SectorsFor(d.length) <= |disk|
  }

  lemma SectorOfByte(d: InodeDisk, i: nat)
    requires i < d.length
    ensures InExtent(d, d.start + i / SECTOR_SIZE)
  {
  }

  /** byte_to_sector(): the sector, in the file's extent, that holds the byte; None stands for
      the -1 of a position that is not in the file. */
  function ByteToSector(d: InodeDisk, pos: nat): (r: Option<nat>)
    ensures r.Some? <==> pos < d.length
    ensures r.Some? ==> InExtent(d, r.value)
  {
    if pos < d.length then Some(d.start + pos / SECTOR_SIZE) else None
  }

  /** The bytes of the file whose inode is `d`. */
  function Contents(disk: Disk, d: InodeDisk): (r: seq<Byte>)
    requires Formed(disk) && Fits(disk, d)
    ensures |r| == d.length
  {
    seq(d.length, i requires 0 <= i < d.length =>
      SectorOfByte(d, i); disk[d.start + i / SECTOR_SIZE][i % SECTOR_SIZE])
  }

  lemma ContentsFrame(disk: Disk, disk': Disk, d: InodeDisk)
    requires Formed(disk) && Formed(disk') && Fits(disk, d) && |disk'| == |disk|
    requires forall b :: 0 <= b < |disk| && InExtent(d, b) ==> disk'[b] == disk[b]
    ensures Contents(disk', d) == Contents(disk, d)
  {
    forall i | 0 <= i < d.length ensures Contents(disk', d)[i] == Contents(disk, d)[i] {
      SectorOfByte(d, i);
    }
  }

  // ----- Writing -----

  function Splice(bytes: seq<Byte>, ofs: nat, data: seq<Byte>): (r: seq<Byte>)
    requires ofs + |data| <= |bytes|
    ensures |r| == |bytes|
  {
    bytes[..ofs] + data + bytes[ofs + |data|..]
  }

  /** Sector `b` after `data` is written at byte `ofs` of the extent that begins at sector
      `start`. */
  function WrittenSector(sector: seq<Byte>, base: int, ofs: nat, data: seq<Byte>): (r: seq<Byte>)
    requires |sector| == SECTOR_SIZE
    ensures |r| == SECTOR_SIZE
  {
    seq(SECTOR_SIZE, j requires 0 <= j < SECTOR_SIZE =>
      if ofs <= base + j < ofs + |data| then data[base + j - ofs] else sector[j])
  }

  function WriteBytes(disk: Disk, start: nat, ofs: nat, data: seq<Byte>): (r: Disk)
    requires Formed(disk)
    ensures Formed(r) && |r| == |disk|
  {
    seq(|disk|, b requires 0 <= b < |disk| => WrittenSector(disk[b], (b - start) * SECTOR_SIZE, ofs, data))
  }

  /** Only sectors that hold one of the written bytes change. */
  lemma WriteBytesFrame(disk: Disk, d: InodeDisk, ofs: nat, data: seq<Byte>, b: nat)
    requires Formed(disk) && b < |disk| && ofs + |data| <= d.length && !InExtent(d, b)
    ensures WriteBytes(disk, d.start, ofs, data)[b] == disk[b]
  {
  }

  lemma WriteNothing(disk: Disk, start: nat, ofs: nat)
    requires Formed(disk)
    ensures WriteBytes(disk, start, ofs, []) == disk
  {
    forall b | 0 <= b < |disk| ensures WriteBytes(disk, start, ofs, [])[b] == disk[b] {
    }
  }

  /** A write inside a file changes exactly those bytes of the file. */
  lemma WriteBytesContents(disk: Disk, d: InodeDisk, ofs: nat, data: seq<Byte>)
    requires Formed(disk) && Fits(disk, d) && ofs + |data| <= d.length
    ensures Contents(WriteBytes(disk, d.start, ofs, data), d) == Splice(Contents(disk, d), ofs, data)
  {
    forall i | 0 <= i < d.length
      ensures Contents(WriteBytes(disk, d.start, ofs, data), d)[i] == Splice(Contents(disk, d), ofs, data)[i]
    {
      SectorOfByte(d, i);
      assert i / SECTOR_SIZE * SECTOR_SIZE + i % SECTOR_SIZE == i;
    }
  }

  /** Two adjacent writes are one. */
  lemma WriteBytesAppend(disk: Disk, start: nat, ofs: nat, a: seq<Byte>, b: seq<Byte>)
    requires Formed(disk)
    ensures WriteBytes(WriteBytes(disk, start, ofs, a), start, ofs + |a|, b) == WriteBytes(disk, start, ofs, a + b)
  {
    var left, right := WriteBytes(WriteBytes(disk, start, ofs, a), start, ofs + |a|, b),
        WriteBytes(disk, start, ofs, a + b);
    forall k | 0 <= k < |disk| ensures left[k] == right[k] {
    }
  }
}
