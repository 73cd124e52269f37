/** inode_read_at() and inode_write_at() of filesys/inode.c: sector by sector transfers with a
    bounce buffer, refined to slices of the flat file contents. */
module InodeData {

  import opened Blocks

  /** The bytes that lie both in the file and in [ofs, ofs + size). */
  function Reach(length: nat, ofs: nat, size: int): nat {
    if size <= 0 || length <= ofs then 0 else if size < length - ofs then size else length - ofs
  }

  /** The bytes a transfer moves.  `memory` says whether the bounce buffer can be allocated;
      without it the transfer stops before the first chunk that is not a whole sector. */
  function Moved(length: nat, ofs: nat, size: int, memory: bool): (n: nat)
    ensures n <= Reach(length, ofs, size)
    ensures size > 0 ==> n <= size
    ensures memory ==> n == Reach(length, ofs, size)
  {
    var reach := Reach(length, ofs, size);
    if memory then reach
    else if ofs % SECTOR_SIZE != 0 then 0
    else reach / SECTOR_SIZE * SECTOR_SIZE
  }

  /** The bytes to copy in one turn of the loops: at most what is left of the request, of the
      sector and of the file. */
  function ChunkSize(length: nat, ofs: nat, size: int): (chunk: int)
    requires size > 0
    ensures chunk <= 0 <==> length <= ofs
    ensures chunk <= size && ofs + chunk <= length && ofs % SECTOR_SIZE + chunk <= SECTOR_SIZE
  {
    var inodeLeft, sectorLeft := length - ofs, SECTOR_SIZE - ofs % SECTOR_SIZE;
    var minLeft := if inodeLeft < sectorLeft then inodeLeft else sectorLeft;
    if size < minLeft then size else minLeft
  }

  /** Removing one chunk from the front of a transfer. */
  lemma MovedStep(length: nat, ofs: nat, size: int, memory: bool, chunk: nat)
    requires size > 0 && chunk > 0
    requires chunk == ChunkSize(length, ofs, size)
    requires memory || (ofs % SECTOR_SIZE == 0 && chunk == SECTOR_SIZE)
    ensures Moved(length, ofs, size, memory) == chunk + Moved(length, ofs + chunk, size - chunk, memory)
  {
    if !memory {
      var reach := Reach(length, ofs, size);
      assert Reach(length, ofs + chunk, size - chunk) == reach - SECTOR_SIZE;
      assert reach / SECTOR_SIZE == 1 + (reach - SECTOR_SIZE) / SECTOR_SIZE;
    }
  }

  /** Without memory the first chunk that is not a whole sector ends the transfer. */
  lemma MovedStops(length: nat, ofs: nat, size: int, chunk: int)
    requires size > 0
    requires chunk == ChunkSize(length, ofs, size)
    requires !(ofs % SECTOR_SIZE == 0 && chunk == SECTOR_SIZE)
    ensures Moved(length, ofs, size, false) == 0
  {
  }

  lemma MovedNone(length: nat, ofs: nat, size: int, memory: bool)
    requires size <= 0 || length <= ofs
    ensures Moved(length, ofs, size, memory) == 0
  {
  }

  /** A transfer of `size` bytes at `pos` of a file with `length` bytes moves n: all that lie in
      the file or, without a bounce buffer, the whole sectors of them from a sector's start. */
  predicate MovesAll(length: nat, pos: nat, size: nat, memory: bool, n: nat) {
    var reach := if length <= pos then 0 else if pos + size <= length then size else length - pos;
    && n <= reach
    && (memory ==> n == reach)
    && (!memory && pos % SECTOR_SIZE != 0 ==> n == 0)
    && (!memory && pos % SECTOR_SIZE == 0 ==> n % SECTOR_SIZE == 0 && reach - n < SECTOR_SIZE)
  }

  lemma MovedMoves(length: nat, pos: nat, size: nat, memory: bool)
    ensures MovesAll(length, pos, size, memory, Moved(length, pos, size, memory))
  {
  }

  /** The block device. */
  class Device {
    var disk: Disk

    constructor (disk: Disk)
      ensures this.disk == disk
    {
      this.disk := disk;
    }

    /** block_read(). */
    method Read(sector: nat) returns (block: seq<Byte>)
      requires Formed(disk) && sector < |disk|
      ensures block == disk[sector] && |block| == SECTOR_SIZE
    {
      block := disk[sector];
    }

    /** block_write(). */
    method Write(sector: nat, block: seq<Byte>)
      requires Formed(disk) && sector < |disk| && |block| == SECTOR_SIZE
      modifies this
      ensures Formed(disk) && disk == old(disk)[sector := block]
    {
      disk := disk[sector := block];
    }

    /** inode_read_at() on an inode whose on-disk part is `d`. */
    method ReadAt(d: InodeDisk, buffer: array<Byte>, size: int, offset: nat, memory: bool) returns (bytesRead: nat)
      requires Formed(disk) && Fits(disk, d) && size <= buffer.Length
      modifies buffer
      ensures bytesRead == Moved(d.length, offset, size, memory) <= buffer.Length
      ensures buffer[..] == Slice(disk, d, offset, bytesRead) + old(buffer[..])[bytesRead..]
    {
      hide Contents, Moved, Reach, Slice, Formed, Fits, ChunkSize, HasRead, ByteToSector;
      bytesRead := 0;
      var left, ofs := size, offset;
      ghost var was := buffer[..];
      NothingRead(disk, d, offset, was);
      while left > 0
        invariant ofs == offset + bytesRead && left == size - bytesRead
        invariant Moved(d.length, offset, size, memory) == bytesRead + Moved(d.length, ofs, left, memory)
        invariant HasRead(disk, d, offset, bytesRead, was, buffer[..])
      {
        var sectorIdx, sectorOfs := ByteToSector(d, ofs), ofs % SECTOR_SIZE;
        var chunk := ChunkSize(d.length, ofs, left);
        if chunk <= 0 {
          break;
        }
        if !(sectorOfs == 0 && chunk == SECTOR_SIZE) && !memory {
          MovedStops(d.length, ofs, left, chunk);
          break;
        }
        MovedStep(d.length, ofs, left, memory, chunk);
        ReadMore(disk, d, offset, bytesRead, chunk, was, buffer[..]);
        var block := Read(sectorIdx.value);
        CopyInto(buffer, bytesRead, block[sectorOfs..sectorOfs + chunk]);
        left, ofs, bytesRead := left - chunk, ofs + chunk, bytesRead + chunk;
      }
      if left <= 0 || d.length <= ofs {
        MovedNone(d.length, ofs, left, memory);
      }
      HasReadIs(disk, d, offset, bytesRead, was, buffer[..]);
    }

    /** inode_write_at() on an inode whose on-disk part is `d`. */
    method WriteAt(d: InodeDisk, denyWriteCnt: nat, buffer: seq<Byte>, offset: nat, memory: bool)
        returns (bytesWritten: nat)
      requires Formed(disk) && Fits(disk, d)
      modifies this
      ensures Formed(disk) && bytesWritten <= |buffer|
      ensures bytesWritten == if denyWriteCnt > 0 then 0 else Moved(d.length, offset, |buffer|, memory)
      ensures disk == WriteBytes(old(disk), d.start, offset, buffer[..bytesWritten])
    {
      hide WriteBytes, Moved, ChunkSize, ByteToSector;
      bytesWritten := 0;
      ghost var was := disk;
      WriteNothing(disk, d.start, offset);
      assert buffer[..0] == [];
      if denyWriteCnt != 0 {
        return;
      }
      var left, ofs := |buffer|, offset;
      while left > 0
        invariant Formed(disk) && |disk| == |was|
        invariant bytesWritten <= |buffer| && ofs == offset + bytesWritten && left == |buffer| - bytesWritten
        invariant Moved(d.length, offset, |buffer|, memory) == bytesWritten + Moved(d.length, ofs, left, memory)
        invariant disk == WriteBytes(was, d.start, offset, buffer[..bytesWritten])
      {
        var sector, sectorOfs := ByteToSector(d, ofs), ofs % SECTOR_SIZE;
        var chunk := ChunkSize(d.length, ofs, left);
        if chunk <= 0 {
          break;
        }
        if !(sectorOfs == 0 && chunk == SECTOR_SIZE) && !memory {
          MovedStops(d.length, ofs, left, chunk);
          break;
        }
        MovedStep(d.length, ofs, left, memory, chunk);
        WriteMore(was, d, offset, buffer, bytesWritten, chunk, disk);
        var sectorIdx, data := sector.value, buffer[bytesWritten..bytesWritten + chunk];
        if sectorOfs == 0 && chunk == SECTOR_SIZE {
          assert data == disk[sectorIdx][..0] + data + disk[sectorIdx][SECTOR_SIZE..];
          Write(sectorIdx, data);
        } else {
          // Here sectorOfs > 0 or chunk is short of the sector's end, so the sector is always read first.
          var bounce := Read(sectorIdx);
          Write(sectorIdx, bounce[..sectorOfs] + data + bounce[sectorOfs + chunk..]);
        }
        left, ofs, bytesWritten := left - chunk, ofs + chunk, bytesWritten + chunk;
      }
      if left <= 0 || d.length <= ofs {
        MovedNone(d.length, ofs, left, memory);
      }
    }
  }

  /** memcpy(). */
  method CopyInto(buffer: array<Byte>, at: nat, data: seq<Byte>)
    requires at + |data| <= buffer.Length
    modifies buffer
    ensures buffer[..] == old(buffer[..])[..at] + data + old(buffer[..])[at + |data|..]
  {
    forall j | 0 <= j < |data| {
      buffer[at + j] := data[j];
    }
  }

  /** `n` bytes of the file from `ofs`; none when `n` is zero, wherever `ofs` is. */
  function Slice(disk: Disk, d: InodeDisk, ofs: nat, n: nat): (r: seq<Byte>)
    requires Formed(disk) && Fits(disk, d) && (n > 0 ==> ofs + n <= d.length)
    ensures |r| == n
  {
    if n == 0 then [] else Contents(disk, d)[ofs..ofs + n]
  }

  lemma SliceGrows(disk: Disk, d: InodeDisk, ofs: nat, n: nat, chunk: nat)
    requires Formed(disk) && Fits(disk, d) && (n + chunk > 0 ==> ofs + n + chunk <= d.length)
    requires (ofs + n) % SECTOR_SIZE + chunk <= SECTOR_SIZE
    ensures chunk > 0 ==>
            d.start + (ofs + n) / SECTOR_SIZE < |disk| && |disk[d.start + (ofs + n) / SECTOR_SIZE]| == SECTOR_SIZE
    ensures var p := ofs + n;
            Slice(disk, d, ofs, n + chunk) == Slice(disk, d, ofs, n) +
              if chunk == 0 then [] else disk[d.start + p / SECTOR_SIZE][p % SECTOR_SIZE..p % SECTOR_SIZE + chunk]
  {
    hide Contents, Slice, InExtent, SectorsFor;
    if chunk > 0 {
      SectorInFile(disk, d, ofs + n);
      ChunkIsSlice(disk, d, ofs + n, chunk);
      SliceIs(disk, d, ofs, n);
      SliceIs(disk, d, ofs, n + chunk);
      Joined(Contents(disk, d), ofs, n, chunk);
    } else {
      assert Slice(disk, d, ofs, n) + [] == Slice(disk, d, ofs, n);
    }
  }

  lemma SliceIs(disk: Disk, d: InodeDisk, ofs: nat, n: nat)
    requires Formed(disk) && Fits(disk, d) && ofs + n <= d.length
    ensures Slice(disk, d, ofs, n) == Contents(disk, d)[ofs..ofs + n]
  {
  }

  lemma SectorInFile(disk: Disk, d: InodeDisk, p: nat)
    requires Formed(disk) && Fits(disk, d) && p < d.length
    ensures d.start + p / SECTOR_SIZE < |disk| && |disk[d.start + p / SECTOR_SIZE]| == SECTOR_SIZE
  {
    SectorOfByte(d, p);
  }

  lemma Joined(bytes: seq<Byte>, at: nat, n: nat, more: nat)
    requires at + n + more <= |bytes|
    ensures bytes[at..at + n + more] == bytes[at..at + n] + bytes[at + n..at + n + more]
  {
  }

  /** A buffer that held `was` holds `now` after n bytes of the file were read into it. */
  ghost predicate HasRead(disk: Disk, d: InodeDisk, ofs: nat, n: nat, was: seq<Byte>, now: seq<Byte>)
    requires Formed(disk) && Fits(disk, d)
  {
    && (n > 0 ==> ofs + n <= d.length) && n <= |was|
    && now == Slice(disk, d, ofs, n) + was[n..]
  }

  lemma HasReadIs(disk: Disk, d: InodeDisk, ofs: nat, n: nat, was: seq<Byte>, now: seq<Byte>)
    requires Formed(disk) && Fits(disk, d) && HasRead(disk, d, ofs, n, was, now)
    ensures n <= |was| && (n > 0 ==> ofs + n <= d.length) && now == Slice(disk, d, ofs, n) + was[n..]
  {
  }

  lemma NothingRead(disk: Disk, d: InodeDisk, ofs: nat, was: seq<Byte>)
    requires Formed(disk) && Fits(disk, d)
    ensures HasRead(disk, d, ofs, 0, was, was)
  {
  }

  /** Copying the next chunk out of its sector. */
  lemma ReadMore(disk: Disk, d: InodeDisk, ofs: nat, n: nat, chunk: nat, was: seq<Byte>, now: seq<Byte>)
    requires Formed(disk) && Fits(disk, d) && 0 < chunk && ofs + n + chunk <= d.length && n + chunk <= |was| == |now|
    requires (ofs + n) % SECTOR_SIZE + chunk <= SECTOR_SIZE && HasRead(disk, d, ofs, n, was, now)
    ensures var idx, at := ByteToSector(d, ofs + n), (ofs + n) % SECTOR_SIZE;
            && idx.Some? && idx.value < |disk| && |disk[idx.value]| == SECTOR_SIZE
            && HasRead(disk, d, ofs, n + chunk, was, now[..n] + disk[idx.value][at..at + chunk] + now[n + chunk..])
  {
    hide Contents, Slice;
    SliceGrows(disk, d, ofs, n, chunk);
    assert now[..n] == Slice(disk, d, ofs, n);
    assert now[n + chunk..] == was[n + chunk..];
  }

  /** One chunk of a read is a slice of the file. */
  lemma ChunkIsSlice(disk: Disk, d: InodeDisk, ofs: nat, chunk: nat)
    requires Formed(disk) && Fits(disk, d) && ofs + chunk <= d.length && 0 < chunk
             && ofs % SECTOR_SIZE + chunk <= SECTOR_SIZE
    ensures InExtent(d, d.start + ofs / SECTOR_SIZE)
    ensures disk[d.start + ofs / SECTOR_SIZE][ofs % SECTOR_SIZE..ofs % SECTOR_SIZE + chunk]
            == Contents(disk, d)[ofs..ofs + chunk]
  {
    SectorOfByte(d, ofs);
    var read := disk[d.start + ofs / SECTOR_SIZE][ofs % SECTOR_SIZE..ofs % SECTOR_SIZE + chunk];
    var slice := Contents(disk, d)[ofs..ofs + chunk];
    forall j | 0 <= j < chunk ensures read[j] == slice[j] {
      SameSector(ofs, j);
    }
  }

  lemma SameSector(ofs: nat, j: nat)
    requires ofs % SECTOR_SIZE + j < SECTOR_SIZE
    ensures (ofs + j) / SECTOR_SIZE == ofs / SECTOR_SIZE && (ofs + j) % SECTOR_SIZE == ofs % SECTOR_SIZE + j
  {
  }

  /** One chunk of a write rewrites one sector. */
  lemma WriteChunk(disk: Disk, start: nat, ofs: nat, data: seq<Byte>)
    requires Formed(disk) && start + ofs / SECTOR_SIZE < |disk| && ofs % SECTOR_SIZE + |data| <= SECTOR_SIZE
             && |data| > 0
    ensures var idx := start + ofs / SECTOR_SIZE;
            WriteBytes(disk, start, ofs, data) ==
            disk[idx := disk[idx][..ofs % SECTOR_SIZE] + data + disk[idx][ofs % SECTOR_SIZE + |data|..]]
  {
    var idx := start + ofs / SECTOR_SIZE;
    var w := WriteBytes(disk, start, ofs, data);
    var sector := disk[idx][..ofs % SECTOR_SIZE] + data + disk[idx][ofs % SECTOR_SIZE + |data|..];
    assert w[idx] == sector;
    forall b | 0 <= b < |disk| && b != idx ensures w[b] == disk[b] {
    }
  }

  /** Writing the next chunk into its sector. */
  lemma WriteMore(was: Disk, d: InodeDisk, ofs: nat, buffer: seq<Byte>, n: nat, chunk: nat, disk: Disk)
    requires Formed(was) && Fits(was, d) && 0 < chunk && ofs + n + chunk <= d.length && n + chunk <= |buffer|
    requires (ofs + n) % SECTOR_SIZE + chunk <= SECTOR_SIZE
    requires disk == WriteBytes(was, d.start, ofs, buffer[..n])
    ensures var idx, at := ByteToSector(d, ofs + n), (ofs + n) % SECTOR_SIZE;
            && idx.Some? && idx.value < |disk| && |disk[idx.value]| == SECTOR_SIZE
            && disk[idx.value := disk[idx.value][..at] + buffer[n..n + chunk] + disk[idx.value][at + chunk..]]
               == WriteBytes(was, d.start, ofs, buffer[..n + chunk])
  {
    hide WriteBytes;
    var data := buffer[n..n + chunk];
    WriteBytesAppend(was, d.start, ofs, buffer[..n], data);
    assert buffer[..n + chunk] == buffer[..n] + data;
    WriteChunk(disk, d.start, ofs + n, data);
  }

  // ----- The flat file -----

  /** What a write does to the files: it splices exactly the moved bytes into this one and
      leaves every file whose extent is disjoint from this one's as it was. */
  lemma WriteIsSplice(disk: Disk, d: InodeDisk, offset: nat, buffer: seq<Byte>, memory: bool, other: InodeDisk)
    requires Formed(disk) && Fits(disk, d) && Fits(disk, other)
    requires forall b :: 0 <= b < |disk| && InExtent(other, b) ==> !InExtent(d, b)
    ensures var n := Moved(d.length, offset, |buffer|, memory);
            var disk' := WriteBytes(disk, d.start, offset, buffer[..n]);
            && (n == 0 ==> disk' == disk)
            && (n > 0 ==> offset + n <= d.length
                          && Contents(disk', d) == Splice(Contents(disk, d), offset, buffer[..n]))
            && Contents(disk', other) == Contents(disk, other)
  {
    var n := Moved(d.length, offset, |buffer|, memory);
    var disk' := WriteBytes(disk, d.start, offset, buffer[..n]);
    if n == 0 {
      WriteNothing(disk, d.start, offset);
    } else {
      WriteBytesContents(disk, d, offset, buffer[..n]);
      forall b | 0 <= b < |disk| && InExtent(other, b) ensures disk'[b] == disk[b] {
        WriteBytesFrame(disk, d, offset, buffer[..n], b);
      }
      ContentsFrame(disk, disk', other);
    }
  }

  /** Reading back what was just written returns it. */
  lemma ReadBackWrite(disk: Disk, d: InodeDisk, offset: nat, buffer: seq<Byte>)
    requires Formed(disk) && Fits(disk, d) && offset < d.length
    ensures var n := Moved(d.length, offset, |buffer|, true);
            Contents(WriteBytes(disk, d.start, offset, buffer[..n]), d)[offset..offset + n] == buffer[..n]
  {
    var n := Moved(d.length, offset, |buffer|, true);
    WriteBytesContents(disk, d, offset, buffer[..n]);
  }
}
