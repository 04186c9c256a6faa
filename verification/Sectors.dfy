/** The data path of filesys/inode.c: reading and writing any range of a file's
    bytes through whole-sector disk operations and a bounce buffer. */
module Sectors {

  newtype Byte = x: int | 0 <= x < 256

  type Block = seq<Byte>

  /** What of an inode the data path uses. */
  datatype Inode = Inode(start: nat, length: nat, denyWriteCnt: nat)

  /** bytes_to_sectors */
  function SectorsFor(length: nat): nat {
    (length + 511) / 512
  }

  ghost predicate Formatted(s: seq<Block>) {
    forall i :: 0 <= i < |s| ==> |s[i]| == 512
  }

  /** The file's sectors exist. */
  predicate OnDisk(s: seq<Block>, f: Inode) {
    f.start + SectorsFor(f.length) <= |s|
  }

  /** Byte `i` after the start of sector `start`; 0 past the end of the disk. */
  function FileByte(s: seq<Block>, start: nat, i: nat): Byte {
    if start + i / 512 < |s| && i % 512 < |s[start + i / 512]| then s[start + i / 512][i % 512] else 0
  }

  /** A byte of the file is in one of its sectors. */
  lemma InExtent(f: Inode, i: nat)
    requires i < f.length
    ensures f.start + i / 512 < f.start + SectorsFor(f.length)
  {
  }

  /** Bytes that follow within the sector. */
  lemma SameSector(offset: nat, t: nat)
    requires offset % 512 + t < 512
    ensures (offset + t) / 512 == offset / 512 && (offset + t) % 512 == offset % 512 + t
  {
  }

  class Disk {
    const sectors: array<Block>

    constructor (n: nat)
      ensures sectors.Length == n && Formatted(sectors[..]) && fresh(sectors)
    {
      sectors := new Block[n](_ => seq(512, _ => 0));
    }
  }

  /** memcpy into a buffer. */
  method CopyIn(buffer: array<Byte>, at: nat, src: seq<Byte>)
    requires at + |src| <= buffer.Length
    modifies buffer
    ensures buffer[..] == old(buffer[..at]) + src + old(buffer[at + |src|..])
  {
    var i := 0;
    while i < |src|
      invariant i <= |src| && buffer[at..at + i] == src[..i]
      invariant buffer[..at] == old(buffer[..at]) && buffer[at + i..] == old(buffer[at + i..])
    {
      buffer[at + i] := src[i];
      i := i + 1;
    }
    assert buffer[..] == buffer[..at] + buffer[at..at + |src|] + buffer[at + |src|..];
  }

  /** How many bytes of a request lie inside the file. */
  function Available(length: nat, size: int, offset: nat): nat {
    if size <= 0 || offset >= length then 0 else if size <= length - offset then size else length - offset
  }

  /** The next piece of a transfer: within the request, the file and the sector. */
  function Chunk(length: nat, size: int, offset: nat): int {
    var inodeLeft, sectorLeft := length - offset, 512 - offset % 512;
    var minLeft := if inodeLeft < sectorLeft then inodeLeft else sectorLeft;
    if size < minLeft then size else minLeft
  }

  /** The whole sectors of a length. */
  function Whole(n: nat): nat {
    n / 512 * 512
  }

  /** Without a bounce buffer a transfer ends before the first piece that is not a whole
      sector. */
  lemma ChunkWhole(length: nat, size: int, offset: nat, n: nat)
    requires n <= Available(length, size, offset) && size - n > 0 && Whole(n) == n
    ensures var chunk := Chunk(length, size - n, offset + n);
            && (chunk == 512 ==> Whole(n + chunk) == n + chunk)
            && (chunk < 512 && offset % 512 == 0 ==> n == Whole(Available(length, size, offset)))
  {
  }

  /** A piece is empty only when the transfer is complete. */
  lemma ChunkFits(length: nat, size: int, offset: nat, n: nat)
    requires n <= Available(length, size, offset) && size - n > 0
    ensures var chunk := Chunk(length, size - n, offset + n);
            && (chunk <= 0 ==> n == Available(length, size, offset))
            && (chunk > 0 ==>
                  n + chunk <= Available(length, size, offset) && (offset + n) % 512 + chunk <= 512
                    && offset + n < length)
  {
  }

  /** A transfer that has moved `n` bytes so far: without a bounce buffer, whole sectors. */
  predicate Moved(length: nat, size: int, offset: nat, n: nat, memory: bool) {
    n <= Available(length, size, offset) && (!memory ==> Whole(n) == n)
  }

  /** A transfer that ends after `n` bytes: all there is with a bounce buffer, and without one
      the whole sectors if it starts on a sector. */
  predicate Done(length: nat, size: int, offset: nat, n: nat, memory: bool) {
    && n <= Available(length, size, offset) && (memory ==> n == Available(length, size, offset))
    && (!memory && offset % 512 == 0 ==> n == Whole(Available(length, size, offset)))
    && (!memory && size < 512 ==> n == 0)
  }

  /** The step of a transfer. */
  lemma MoveStep(length: nat, size: int, offset: nat, n: nat, memory: bool)
    requires Moved(length, size, offset, n, memory) && size - n > 0
    ensures var pos, chunk := offset + n, Chunk(length, size - n, offset + n);
            && (chunk <= 0 ==> Done(length, size, offset, n, memory))
            && (!(pos % 512 == 0 && chunk == 512) && !memory ==> Done(length, size, offset, n, memory))
            && (chunk > 0 && (memory || chunk == 512) ==> Moved(length, size, offset, n + chunk, memory))
            && (chunk > 0 ==> n + chunk <= size && pos % 512 + chunk <= 512 && pos < length)
  {
    ChunkFits(length, size, offset, n);
    if !memory { ChunkWhole(length, size, offset, n); }
  }

  lemma MoveEnd(length: nat, size: int, offset: nat, n: nat, memory: bool)
    requires Moved(length, size, offset, n, memory) && size - n <= 0
    ensures Done(length, size, offset, n, memory)
  {
  }

  /** `n` bytes of a file. */
  function Slice(s: seq<Block>, start: nat, lo: nat, n: nat): (r: seq<Byte>)
    ensures |r| == n && forall i :: 0 <= i < n ==> r[i] == FileByte(s, start, lo + i)
  {
    if n == 0 then [] else Slice(s, start, lo, n - 1) + [FileByte(s, start, lo + n - 1)]
  }

  lemma InPiece(s: seq<Block>, start: nat, pos: nat, t: nat, piece: seq<Byte>)
    requires Formatted(s) && start + pos / 512 < |s| && pos % 512 + |piece| <= 512 && t < |piece|
    requires piece == s[start + pos / 512][pos % 512..pos % 512 + |piece|]
    ensures FileByte(s, start, pos + t) == piece[t]
  {
    SameSector(pos, t);
  }

  /** The next piece of a file is a piece of one sector. */
  lemma SliceMore(s: seq<Block>, start: nat, lo: nat, n: nat, piece: seq<Byte>)
    requires Formatted(s) && start + (lo + n) / 512 < |s| && (lo + n) % 512 + |piece| <= 512
    requires var pos := lo + n; piece == s[start + pos / 512][pos % 512..pos % 512 + |piece|]
    ensures Slice(s, start, lo, n + |piece|) == Slice(s, start, lo, n) + piece
  {
    forall i | 0 <= i < n + |piece|
      ensures FileByte(s, start, lo + i) == (Slice(s, start, lo, n) + piece)[i]
    {
      if i >= n { InPiece(s, start, lo + n, i - n, piece); }
    }
  }

  /** The first `n` bytes of a buffer that was `was` have been read. */
  ghost predicate ReadSoFar(s: seq<Block>, f: Inode, offset: nat, n: nat, buffer: seq<Byte>, was: seq<Byte>) {
    n <= |buffer| == |was| && buffer[..n] == Slice(s, f.start, offset, n) && buffer[n..] == was[n..]
  }

  lemma ReadMore(s: seq<Block>, f: Inode, offset: nat, n: nat, piece: seq<Byte>, buffer: seq<Byte>, b: seq<Byte>,
                 was: seq<Byte>)
    requires Formatted(s) && f.start + (offset + n) / 512 < |s| && (offset + n) % 512 + |piece| <= 512
             && n + |piece| <= |buffer|
    requires ReadSoFar(s, f, offset, n, buffer, was)
    requires var pos := offset + n; piece == s[f.start + pos / 512][pos % 512..pos % 512 + |piece|]
    requires b == buffer[..n] + piece + buffer[n + |piece|..]
    ensures ReadSoFar(s, f, offset, n + |piece|, b, was)
  {
    SliceMore(s, f.start, offset, n, piece);
    assert buffer[n + |piece|..] == buffer[n..][|piece|..] && was[n + |piece|..] == was[n..][|piece|..];
  }

  /** Reading one piece, after `n` bytes have been read. */
  method ReadChunk(disk: Disk, f: Inode, buffer: array<Byte>, offset: nat, n: nat, chunk: nat, ghost was: seq<Byte>)
    requires Formatted(disk.sectors[..]) && OnDisk(disk.sectors[..], f) && n + chunk <= buffer.Length
    requires offset + n < f.length && (offset + n) % 512 + chunk <= 512
    requires ReadSoFar(disk.sectors[..], f, offset, n, buffer[..], was)
    modifies buffer
    ensures ReadSoFar(disk.sectors[..], f, offset, n + chunk, buffer[..], was)
  {
    var pos := offset + n;
    InExtent(f, pos);
    ghost var before := buffer[..];
    var piece := disk.sectors[f.start + pos / 512][pos % 512..pos % 512 + chunk];
    CopyIn(buffer, n, piece);
    ReadMore(disk.sectors[..], f, offset, n, piece, before, buffer[..], was);
  }

  /** inode_read_at; `memory` says whether the bounce buffer can be allocated. */
  method ReadAt(disk: Disk, f: Inode, buffer: array<Byte>, size: int, offset: nat, memory: bool) returns (n: nat)
    requires Formatted(disk.sectors[..]) && OnDisk(disk.sectors[..], f) && size <= buffer.Length
    modifies buffer
    ensures Done(f.length, size, offset, n, memory)
    ensures ReadSoFar(disk.sectors[..], f, offset, n, buffer[..], old(buffer[..]))
  {
    n := 0;
    while size - n > 0
      invariant var moved := Moved(f.length, size, offset, n, memory); moved
      invariant ReadSoFar(disk.sectors[..], f, offset, n, buffer[..], old(buffer[..]))
      decreases size - n
    {
      MoveStep(f.length, size, offset, n, memory);
      var pos, chunk := offset + n, Chunk(f.length, size - n, offset + n);
      if chunk <= 0 { return; }
      if !(pos % 512 == 0 && chunk == 512) && !memory { return; }
      ReadChunk(disk, f, buffer, offset, n, chunk, old(buffer[..]));
      n := n + chunk;
    }
    MoveEnd(f.length, size, offset, n, memory);
  }

  /** A sector with bytes from `at` on replaced. */
  function Patched(block: Block, at: nat, bytes: seq<Byte>): Block
    requires at + |bytes| <= |block|
  {
    block[..at] + bytes + block[at + |bytes|..]
  }

  /** Bytes [lo, hi) of a file are those at the start of `buffer`; every other byte of the
      disk is as it was. */
  ghost predicate Written(s: seq<Block>, t: seq<Block>, start: nat, lo: nat, hi: nat, buffer: seq<Byte>)
    requires lo <= hi && hi - lo <= |buffer|
  {
    && |t| == |s|
    && (forall i: nat :: FileByte(t, start, i) == if lo <= i < hi then buffer[i - lo] else FileByte(s, start, i))
    && (forall j :: 0 <= j < start && j < |s| ==> t[j] == s[j])
  }

  /** One more sector written. */
  lemma WrittenMore(s: seq<Block>, t: seq<Block>, start: nat, lo: nat, hi: nat, buffer: seq<Byte>, bytes: seq<Byte>,
                    u: seq<Block>)
    requires Formatted(t) && lo <= hi && hi - lo + |bytes| <= |buffer| && Written(s, t, start, lo, hi, buffer)
    requires start + hi / 512 < |t| && hi % 512 + |bytes| <= 512 && bytes == buffer[hi - lo..hi - lo + |bytes|]
    requires u == t[start + hi / 512 := Patched(t[start + hi / 512], hi % 512, bytes)]
    ensures Formatted(u) && Written(s, u, start, lo, hi + |bytes|, buffer)
  {
    forall i: nat
      ensures FileByte(u, start, i) == if lo <= i < hi + |bytes| then buffer[i - lo] else FileByte(s, start, i)
    {
      assert FileByte(t, start, i) == if lo <= i < hi then buffer[i - lo] else FileByte(s, start, i);
      PatchedByte(t, start, hi, |bytes|, bytes, i);
    }
  }

  /** What patching one sector does to one byte. */
  lemma PatchedByte(t: seq<Block>, start: nat, hi: nat, chunk: nat, bytes: seq<Byte>, i: nat)
    requires Formatted(t) && |bytes| == chunk && start + hi / 512 < |t| && hi % 512 + chunk <= 512
    ensures var j := start + hi / 512;
            FileByte(t[j := Patched(t[j], hi % 512, bytes)], start, i) ==
              if hi <= i < hi + chunk then bytes[i - hi] else FileByte(t, start, i)
  {
    assert i / 512 == hi / 512 ==> (hi <= i < hi + chunk <==> hi % 512 <= i % 512 < hi % 512 + chunk);
  }

  /** Writing one piece: directly if it is a whole sector, else through the bounce buffer.  The
      code has a branch that starts from zeros when the piece fills its sector; it is never
      taken. */
  method WriteChunk(disk: Disk, j: nat, ofs: nat, bytes: seq<Byte>, memory: bool) returns (ok: bool)
    requires Formatted(disk.sectors[..]) && j < disk.sectors.Length && 0 < |bytes| && ofs + |bytes| <= 512
    modifies disk.sectors
    ensures ok <==> memory || |bytes| == 512
    ensures disk.sectors[..] == if ok then old(disk.sectors[..])[j := Patched(old(disk.sectors[j]), ofs, bytes)]
            else old(disk.sectors[..])
  {
    if ofs == 0 && |bytes| == 512 {
      disk.sectors[j] := bytes;
      assert bytes == Patched(old(disk.sectors[j]), ofs, bytes);
    } else {
      if !memory { return false; }
      var bounce := Zeros(512);
      if ofs > 0 || |bytes| < 512 - ofs { bounce := disk.sectors[j]; }
      assert ofs > 0 || |bytes| < 512 - ofs;
      disk.sectors[j] := Patched(bounce, ofs, bytes);
    }
    ok := true;
  }

  /** Writing one piece, after `n` bytes have been written to a disk that was `s`. */
  method WritePiece(disk: Disk, f: Inode, buffer: seq<Byte>, offset: nat, n: nat, chunk: nat, memory: bool,
                    ghost s: seq<Block>) returns (ok: bool)
    requires Formatted(disk.sectors[..]) && OnDisk(disk.sectors[..], f) && Formatted(s) && 0 < chunk
             && n + chunk <= |buffer|
    requires offset + n < f.length && (offset + n) % 512 + chunk <= 512
             && Written(s, disk.sectors[..], f.start, offset, offset + n, buffer)
    modifies disk.sectors
    ensures Formatted(disk.sectors[..]) && (ok <==> memory || chunk == 512)
    ensures Written(s, disk.sectors[..], f.start, offset, if ok then offset + n + chunk else offset + n, buffer)
  {
    var pos := offset + n;
    InExtent(f, pos);
    ghost var t := disk.sectors[..];
    var bytes := buffer[n..n + chunk];
    ok := WriteChunk(disk, f.start + pos / 512, pos % 512, bytes, memory);
    if ok { WrittenMore(s, t, f.start, offset, pos, buffer, bytes, disk.sectors[..]); }
  }

  /** inode_write_at; `memory` says whether the bounce buffer can be allocated. */
  method WriteAt(disk: Disk, f: Inode, buffer: seq<Byte>, size: int, offset: nat, memory: bool) returns (n: nat)
    requires Formatted(disk.sectors[..]) && OnDisk(disk.sectors[..], f) && size <= |buffer|
    modifies disk.sectors
    ensures Formatted(disk.sectors[..]) && n <= Available(f.length, size, offset)
    ensures if f.denyWriteCnt > 0 then n == 0 else Done(f.length, size, offset, n, memory)
    ensures Written(old(disk.sectors[..]), disk.sectors[..], f.start, offset, offset + n, buffer)
  {
    n := 0;
    if f.denyWriteCnt > 0 { return; }
    while size - n > 0
      invariant Formatted(disk.sectors[..]) && n <= |buffer|
      invariant var moved := Moved(f.length, size, offset, n, memory); moved
      invariant Written(old(disk.sectors[..]), disk.sectors[..], f.start, offset, offset + n, buffer)
      decreases size - n
    {
      MoveStep(f.length, size, offset, n, memory);
      var pos, chunk := offset + n, Chunk(f.length, size - n, offset + n);
      if chunk <= 0 { return; }
      var ok := WritePiece(disk, f, buffer, offset, n, chunk, memory, old(disk.sectors[..]));
      if !ok { return; }
      n := n + chunk;
    }
    MoveEnd(f.length, size, offset, n, memory);
  }

  // --------------------------------------------------------------- consequences

  /** Sectors outside the file's extent are as they were. */
  ghost predicate OnlyExtent(s: seq<Block>, t: seq<Block>, f: Inode) {
    |t| == |s| && forall j :: 0 <= j < |s| && !(f.start <= j < f.start + SectorsFor(f.length)) ==> t[j] == s[j]
  }

  lemma WroteExtent(s: seq<Block>, t: seq<Block>, f: Inode, lo: nat, hi: nat, e: seq<Byte>)
    requires Formatted(s) && Formatted(t) && lo <= hi && hi - lo <= Available(f.length, |e|, lo)
             && Written(s, t, f.start, lo, hi, e)
    ensures OnlyExtent(s, t, f)
  {
    forall j | 0 <= j < |s| && !(f.start <= j < f.start + SectorsFor(f.length))
      ensures t[j] == s[j]
    {
      if lo <= f.length {
        WrittenElsewhere(s, t, f, lo, hi, e, j);
      } else {
        WrittenNothing(s, t, f.start, lo, e, j);
      }
    }
  }

  /** Writing nothing changes nothing. */
  lemma WrittenNothing(s: seq<Block>, t: seq<Block>, start: nat, lo: nat, e: seq<Byte>, j: nat)
    requires Formatted(s) && Formatted(t) && Written(s, t, start, lo, lo, e) && j < |s|
    ensures t[j] == s[j]
  {
    if j >= start {
      forall p | 0 <= p < 512
        ensures t[j][p] == s[j][p]
      {
        var i := (j - start) * 512 + p;
        assert i / 512 == j - start && i % 512 == p;
        assert FileByte(t, start, i) == FileByte(s, start, i);
      }
    }
  }

  /** A write to one file leaves every sector of every other extent alone. */
  lemma WrittenElsewhere(s: seq<Block>, t: seq<Block>, f: Inode, lo: nat, hi: nat, buffer: seq<Byte>, j: nat)
    requires Formatted(s) && Formatted(t) && lo <= hi <= f.length && hi - lo <= |buffer|
             && Written(s, t, f.start, lo, hi, buffer)
    requires j < |s| && !(f.start <= j < f.start + SectorsFor(f.length))
    ensures t[j] == s[j]
  {
    if j >= f.start {
      forall p | 0 <= p < 512
        ensures t[j][p] == s[j][p]
      {
        var i := (j - f.start) * 512 + p;
        assert i / 512 == j - f.start && i % 512 == p;
        assert i >= hi && FileByte(t, f.start, i) == FileByte(s, f.start, i);
      }
    }
  }

  lemma ThreeParts<T>(whole: seq<T>, a: seq<T>, b: seq<T>, c: seq<T>)
    requires |whole| == |a| + |b| + |c|
    requires forall i :: 0 <= i < |a| ==> whole[i] == a[i]
    requires forall i :: 0 <= i < |b| ==> whole[|a| + i] == b[i]
    requires forall i :: 0 <= i < |c| ==> whole[|a| + |b| + i] == c[i]
    ensures whole == a + b + c
  {
    forall i | 0 <= i < |whole|
      ensures whole[i] == (a + b + c)[i]
    {
      assert |a| + |b| <= i ==> whole[|a| + |b| + (i - |a| - |b|)] == c[i - |a| - |b|];
      assert |a| <= i < |a| + |b| ==> whole[|a| + (i - |a|)] == b[i - |a|];
    }
  }

  /** Reading back what was written. */
  lemma WrittenRead(s: seq<Block>, t: seq<Block>, start: nat, lo: nat, hi: nat, buffer: seq<Byte>)
    requires lo <= hi && hi - lo <= |buffer| && Written(s, t, start, lo, hi, buffer)
    ensures Slice(t, start, lo, hi - lo) == buffer[..hi - lo]
  {
    forall i | 0 <= i < hi - lo
      ensures Slice(t, start, lo, hi - lo)[i] == buffer[i]
    {
      assert FileByte(t, start, lo + i) == buffer[lo + i - lo];
    }
  }

  /** Reading the whole file after a write. */
  lemma WrittenSlice(s: seq<Block>, t: seq<Block>, start: nat, lo: nat, hi: nat, buffer: seq<Byte>, length: nat)
    requires lo <= hi <= length && hi - lo <= |buffer| && Written(s, t, start, lo, hi, buffer)
    ensures Slice(t, start, 0, length) == Slice(s, start, 0, lo) + buffer[..hi - lo] + Slice(s, start, hi, length - hi)
  {
    var whole, a, b, c := Slice(t, start, 0, length), Slice(s, start, 0, lo), buffer[..hi - lo],
      Slice(s, start, hi, length - hi);
    forall i | 0 <= i < lo
      ensures whole[i] == a[i]
    {
      assert FileByte(t, start, 0 + i) == FileByte(s, start, 0 + i);
    }
    forall i | 0 <= i < hi - lo
      ensures whole[lo + i] == b[i]
    {
      assert FileByte(t, start, 0 + (lo + i)) == buffer[lo + i - lo];
    }
    forall i | 0 <= i < length - hi
      ensures whole[hi + i] == c[i]
    {
      assert FileByte(t, start, 0 + (hi + i)) == FileByte(s, start, hi + i);
    }
    ThreeParts(whole, a, b, c);
  }

  /** inode_create's loop: a new file's sectors are zeroed. */
  method ZeroFill(disk: Disk, start: nat, n: nat)
    requires Formatted(disk.sectors[..]) && start + n <= disk.sectors.Length
    modifies disk.sectors
    ensures Formatted(disk.sectors[..])
    ensures forall j :: 0 <= j < disk.sectors.Length && !(start <= j < start + n) ==>
              disk.sectors[..][j] == old(disk.sectors[..])[j]
    ensures forall length: nat :: length <= 512 * n ==> Slice(disk.sectors[..], start, 0, length) == Zeros(length)
  {
    var i := 0;
    while i < n
      invariant i <= n && Formatted(disk.sectors[..])
      invariant forall j :: 0 <= j < disk.sectors.Length && !(start <= j < start + i) ==>
                  disk.sectors[..][j] == old(disk.sectors[..])[j]
      invariant forall j :: start <= j < start + i ==> disk.sectors[..][j] == Zeros(512)
    {
      disk.sectors[start + i] := Zeros(512);
      i := i + 1;
    }
    forall length: nat | length <= 512 * n
      ensures Slice(disk.sectors[..], start, 0, length) == Zeros(length)
    {
      ZeroSlice(disk.sectors[..], start, n, length);
    }
  }

  function Zeros(n: nat): (r: seq<Byte>)
    ensures |r| == n && forall i :: 0 <= i < n ==> r[i] == 0
  {
    seq(n, _ => 0)
  }

  lemma ZeroSlice(s: seq<Block>, start: nat, n: nat, length: nat)
    requires Formatted(s) && start + n <= |s| && length <= 512 * n && forall j :: start <= j < start + n ==>
               s[j] == Zeros(512)
    ensures Slice(s, start, 0, length) == Zeros(length)
  {
    forall i | 0 <= i < length
      ensures Slice(s, start, 0, length)[i] == 0
    {
      assert start + i / 512 < start + n;
    }
  }
}
