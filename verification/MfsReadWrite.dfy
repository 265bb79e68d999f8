/** Reading and writing files in chunks, and files kept in the inode itself. */
module MfsReadWrite {
  import opened Arithmetic
  import opened Errno
  import opened ZoneWords
  import opened BlockMap
  import opened WriteMapSpec
  import opened FileBytes
  import opened FlatFile
  import opened MfsVolume
  import opened MfsReadMap
  import opened MfsWrite

  const IMMEDIATE_MAX: nat := 32

  datatype Transfer = READING | WRITING

  // rw_chunk blanks the rest of a block when a write starts the block at or past
  // the end of the file.
  predicate Blanks(g: Geometry, size: nat, position: nat, chunk: nat)
    requires 0 < g.nr
  {
    chunk != g.BlockSize() && position >= size && BlockOff(g, position) == 0
  }

  ghost predicate ChunkWritten(g: Geometry, img: Image, img': Image, size: nat, position: nat, data: Bytes)
    requires Formatted(g, img) && Formatted(g, img')
  {
    forall q: nat :: ByteAt(g, img', q) ==
      if position <= q < position + |data| then data[q - position]
      else if Blanks(g, size, position, |data|) && BlockNo(g, q) == BlockNo(g, position) then 0
      else ByteAt(g, img, q)
  }

  // out is what the file holds from position on.
  ghost predicate Delivers(g: Geometry, img: Image, position: nat, out: Bytes)
    requires Formatted(g, img)
  {
    forall q: nat | position <= q < position + |out| :: out[q - position] == ByteAt(g, img, q)
  }

  ghost predicate AlmostFull(g: Geometry, inUse: set<Zone>) {
    forall y, z: Zone | g.InRange(y) && g.InRange(z) && y !in inUse && z !in inUse :: y == z
  }

  // The blocks of other files are as they were.
  ghost predicate OthersKept(disk: map<Zone, Bytes>, disk': map<Zone, Bytes>, others: set<Zone>) {
    forall z | z in others && z in disk :: z in disk' && disk'[z] == disk[z]
  }

  lemma OthersKeptThrough(disk: map<Zone, Bytes>, disk1: map<Zone, Bytes>, disk2: map<Zone, Bytes>, others: set<Zone>)
    requires OthersKept(disk, disk1, others) && OthersKept(disk1, disk2, others)
    ensures OthersKept(disk, disk2, others)
  {
  }

  lemma AlwaysKept(disk: map<Zone, Bytes>, others: set<Zone>)
    ensures OthersKept(disk, disk, others)
  {
  }

  // A file zone's block is not one of theirs.
  lemma NotOthers(g: Geometry, img: Image, inUse: set<Zone>, others: set<Zone>, k: nat)
    requires Mapped(g, img, inUse, others) && k < g.Capacity() && Lookup(g, img, k) != NO_ZONE
    ensures Lookup(g, img, k) !in others
  {
    hide Target;
    assert Referenced(g, img, Lookup(g, img, k));
  }

  // The buffer of block b takes the caller's bytes, after being zeroed if blank.
  method CopyIn(sp: Volume, b: Zone, off: nat, data: Bytes, blank: bool)
    requires b in sp.disk && |sp.disk[b]| == sp.g.BlockSize() && off + |data| <= sp.g.BlockSize()
    modifies sp`disk
    ensures b in sp.disk && |sp.disk[b]| == sp.g.BlockSize() && sp.disk == old(sp.disk)[b := sp.disk[b]]
    ensures forall j: nat | j < sp.g.BlockSize() :: sp.disk[b][j] ==
              if off <= j < off + |data| then data[j - off] else if blank then 0 else old(sp.disk)[b][j]
  {
    if blank {
      ZeroBlock(sp, b);
    }
    sp.disk := sp.disk[b := sp.disk[b][..off] + data + sp.disk[b][off + |data|..]];
  }

  // The reading half of rw_chunk; b is what read_map found.
  method ReadChunk(rip: Inode, position: nat, off: nat, chunk: nat, b: nat, ghost others: set<Zone>)
    returns (out: Bytes)
    requires rip.ValidMap(others)
    requires off == BlockOff(rip.sp.g, position) && 0 < chunk && off + chunk <= rip.sp.g.BlockSize()
    requires BlockNo(rip.sp.g, position) < rip.sp.g.Capacity()
    requires b == Lookup(rip.sp.g, rip.Img(), BlockNo(rip.sp.g, position))
    modifies rip.sp`disk
    ensures rip.sp.disk == old(rip.sp.disk)
    ensures |out| == chunk && Delivers(rip.sp.g, rip.Img(), position, out)
  {
    var sp := rip.sp;
    var g := sp.g;
    ghost var img, k := rip.Img(), BlockNo(g, position);
    assert Formatted(g, img);
    hide Lookup, BlockNo, BlockOff, ByteAt, Mapped, Delivers;
    if b == NO_BLOCK {
      HoleRead(g, img, position, chunk);
      return Zeros(chunk);
    }
    MappedBytes(g, img, sp.inUse, others, k);
    GetBlock(sp, b, false);
    out := sp.disk[b][off..off + chunk];
    BlockRead(g, img, position, chunk, sp.disk[b]);
  }

  // A buffer for the block that a write goes to: a hole gets a new block, an
  // existing block is fetched, without its contents if they do not matter. img1
  // is the volume before the buffer's contents, which may be anything then.
  method BufferForWrite(rip: Inode, position: nat, b0: nat, noRead: bool, ghost others: set<Zone>)
    returns (b: Zone, ghost img1: Image)
    requires rip.mode == REGULAR && rip.ValidMap(others) && rip.sp.zoneBlocks == 1
    requires BlockNo(rip.sp.g, position) == ZoneAt(rip.sp, position) < rip.sp.g.Capacity()
    requires b0 == Lookup(rip.sp.g, rip.Img(), BlockNo(rip.sp.g, position))
    modifies rip`izone, rip`zsearch, rip.sp
    ensures Mapped(rip.sp.g, img1, rip.sp.inUse, others) && Formatted(rip.sp.g, img1)
    ensures SameBytes(rip.sp.g, old(rip.Img()), img1)
    ensures OthersKept(old(rip.sp.disk), img1.disk, others) && (b != NO_ZONE ==> b !in others)
    ensures b == NO_ZONE ==>
              && b0 == NO_BLOCK && img1 == rip.Img() && rip.sp.errCode != OK && AlmostFull(rip.sp.g, rip.sp.inUse)
              && Lookup(rip.sp.g, img1, BlockNo(rip.sp.g, position)) == NO_ZONE
    ensures b != NO_ZONE ==>
              && b == Lookup(rip.sp.g, img1, BlockNo(rip.sp.g, position))
              && b in img1.disk && |img1.disk[b]| == rip.sp.g.BlockSize()
              && b in rip.sp.disk && |rip.sp.disk[b]| == rip.sp.g.BlockSize()
              && rip.Img() == WithBlock(img1, b, rip.sp.disk[b])
              && (!noRead || b0 == NO_BLOCK ==> rip.sp.disk[b] == img1.disk[b])
  {
    var sp := rip.sp;
    var g := sp.g;
    ghost var img, k := rip.Img(), BlockNo(g, position);
    assert Formatted(g, img);
    hide Lookup, Acquired, BlockNo, BlockOff, ByteAt, Mapped, SameBytes, Formatted, ZoneAt;
    if b0 != NO_BLOCK { NotOthers(g, img, sp.inUse, others, k); }
    if b0 == NO_BLOCK {
      var nb := NewBlock(rip, position, others);
      NewBlockBytes(g, img, old(sp.inUse), others, k, nb, rip.Img(), sp.inUse);
      b := nb;
      img1 := rip.Img();
      if b != NO_ZONE {
        MappedBytes(g, img1, sp.inUse, others, k);
        NotOthers(g, img1, sp.inUse, others, k);
        assert rip.Img() == WithBlock(img1, b, sp.disk[b]);
      }
    } else {
      b := b0;
      MappedBytes(g, img, sp.inUse, others, k);
      SameRefl(g, img);
      img1 := rip.Img();
      GetBlock(sp, b, noRead);
    }
  }

  // The writing half of rw_chunk.
  method WriteChunk(rip: Inode, position: nat, off: nat, data: Bytes, b0: nat, ghost others: set<Zone>)
    returns (r: int)
    requires rip.mode == REGULAR && rip.ValidMap(others) && rip.sp.zoneBlocks == 1
    requires off == BlockOff(rip.sp.g, position) && data != [] && off + |data| <= rip.sp.g.BlockSize()
    requires BlockNo(rip.sp.g, position) == ZoneAt(rip.sp, position) < rip.sp.g.Capacity()
    requires b0 == Lookup(rip.sp.g, rip.Img(), BlockNo(rip.sp.g, position))
    modifies rip`izone, rip`zsearch, rip.sp
    ensures rip.ValidMap(others) && OthersKept(old(rip.sp.disk), rip.sp.disk, others)
    ensures r == OK ==> ChunkWritten(rip.sp.g, old(rip.Img()), rip.Img(), rip.size, position, data)
    ensures r != OK ==> SameBytes(rip.sp.g, old(rip.Img()), rip.Img()) && AlmostFull(rip.sp.g, rip.sp.inUse)
    ensures r != OK ==> r == rip.sp.errCode && b0 == NO_BLOCK && Lookup(rip.sp.g, rip.Img(), BlockNo(rip.sp.g, position)) == NO_ZONE
  {
    var sp := rip.sp;
    var g := sp.g;
    ghost var img := rip.Img();
    assert Formatted(g, img);
    hide Lookup, BlockNo, ByteAt, Mapped, ChunkWritten, SameBytes, Formatted, ZoneAt;
    var b, img1 := BufferForWrite(rip, position, b0,
      |data| == g.BlockSize() || (off == 0 && position >= rip.size), others);
    if b == NO_ZONE {
      return sp.errCode;
    }
    CopyIn(sp, b, off, data, |data| != g.BlockSize() && position >= rip.size && off == 0);
    assert rip.Img() == WithBlock(img1, b, sp.disk[b]);
    ChunkDone(g, img, img1, sp.inUse, others, rip.size, position, data, b, sp.disk[b]);
    return OK;
  }

  method RwChunk(rip: Inode, position: nat, off: nat, chunk: nat, rw: Transfer, data: Bytes, ghost others: set<Zone>)
    returns (r: int, out: Bytes)
    requires rip.mode == REGULAR && rip.ValidMap(others) && rip.sp.zoneBlocks == 1
    requires off == BlockOff(rip.sp.g, position) && 0 < chunk && off + chunk <= rip.sp.g.BlockSize()
    requires BlockNo(rip.sp.g, position) < rip.sp.g.Capacity()
    requires rw == WRITING ==> |data| == chunk
    modifies rip`izone, rip`zsearch, rip.sp
    ensures rip.ValidMap(others) && OthersKept(old(rip.sp.disk), rip.sp.disk, others)
    ensures rw == READING ==>
              && r == OK && rip.Img() == old(rip.Img()) && rip.sp.inUse == old(rip.sp.inUse)
              && rip.zsearch == old(rip.zsearch)
              && |out| == chunk && Delivers(rip.sp.g, rip.Img(), position, out)
    ensures rw == WRITING && r == OK ==>
              ChunkWritten(rip.sp.g, old(rip.Img()), rip.Img(), rip.size, position, data)
    ensures rw == WRITING && r != OK ==>
              && r == rip.sp.errCode
              && SameBytes(rip.sp.g, old(rip.Img()), rip.Img()) && AlmostFull(rip.sp.g, rip.sp.inUse)
              && Lookup(rip.sp.g, old(rip.Img()), BlockNo(rip.sp.g, position)) == NO_ZONE
              && Lookup(rip.sp.g, rip.Img(), BlockNo(rip.sp.g, position)) == NO_ZONE
  {
    BlockOfPosition(rip, position);
    hide Lookup, BlockNo, BlockOff, ByteAt, Mapped, ChunkWritten, SameBytes, Delivers;
    var b, _ := ReadMap(rip, position, others);
    if rw == READING {
      out := ReadChunk(rip, position, off, chunk, b, others);
      r := OK;
    } else {
      r := WriteChunk(rip, position, off, data, b, others);
      out := [];
    }
  }

  // The file block of a position is the one read_map looks for.
  lemma BlockOfPosition(rip: Inode, position: nat)
    requires 0 < rip.sp.g.nr && rip.sp.zoneBlocks == 1
    ensures ZoneAt(rip.sp, position) == BlockNo(rip.sp.g, position)
    ensures forall z: Zone :: BlockIn(rip.sp, position, z) == z
  {
  }

  lemma SameRefl(g: Geometry, img: Image)
    requires Formatted(g, img)
    ensures SameBytes(g, img, img)
  {
  }

  lemma HoleRead(g: Geometry, img: Image, position: nat, chunk: nat)
    requires Formatted(g, img) && 0 < chunk && BlockOff(g, position) + chunk <= g.BlockSize()
    requires BlockNo(g, position) < g.Capacity() && Lookup(g, img, BlockNo(g, position)) == NO_ZONE
    ensures Delivers(g, img, position, Zeros(chunk))
  {
    forall q: nat | position <= q < position + chunk ensures ByteAt(g, img, q) == 0 {
      ChunkInBlock(g, position, chunk, q);
      hide BlockNo, BlockOff, Lookup;
    }
  }

  lemma BlockRead(g: Geometry, img: Image, position: nat, chunk: nat, x: Bytes)
    requires Formatted(g, img) && 0 < chunk && BlockOff(g, position) + chunk <= g.BlockSize() && |x| == g.BlockSize()
    requires forall q: nat | BlockNo(g, q) == BlockNo(g, position) :: ByteAt(g, img, q) == x[BlockOff(g, q)]
    ensures Delivers(g, img, position, x[BlockOff(g, position)..BlockOff(g, position) + chunk])
  {
    var out := x[BlockOff(g, position)..BlockOff(g, position) + chunk];
    forall q: nat | position <= q < position + chunk ensures out[q - position] == ByteAt(g, img, q) {
      ChunkInBlock(g, position, chunk, q);
      hide BlockNo, BlockOff, ByteAt;
    }
  }

  lemma NewBlockBytes(g: Geometry, img: Image, inUse: set<Zone>, others: set<Zone>, k: nat,
                      b: nat, img': Image, inUse': set<Zone>)
    requires Mapped(g, img, inUse, others) && k < g.Capacity() && Lookup(g, img, k) == NO_ZONE
    requires Acquired(g, img, inUse, others, k, b, img', inUse')
    ensures Mapped(g, img', inUse', others) && Formatted(g, img') && SameBytes(g, img, img')
    ensures OthersKept(img.disk, img'.disk, others)
    ensures b == NO_BLOCK ==> AlmostFull(g, inUse') && Lookup(g, img', k) == NO_ZONE
    ensures b != NO_BLOCK ==> b < 0x1_0000_0000 && g.InRange(b) && Lookup(g, img', k) == b
  {
    AcquiredBytes(g, img, inUse, others, k, b, img', inUse');
    AcquiredOthers(g, img, inUse, others, k, b, img', inUse');
    hide Lookup, Mapped, Formatted, SameBytes;
  }

  lemma AcquiredOthers(g: Geometry, img: Image, inUse: set<Zone>, others: set<Zone>, k: nat,
                       b: nat, img': Image, inUse': set<Zone>)
    requires Mapped(g, img, inUse, others) && k < g.Capacity() && Lookup(g, img, k) == NO_ZONE
    requires Acquired(g, img, inUse, others, k, b, img', inUse')
    ensures OthersKept(img.disk, img'.disk, others)
  {
    forall z | z in others && z in img.disk ensures z in img'.disk && img'.disk[z] == img.disk[z] {
      NotMeta(g, img, inUse, others, z);
      hide Target, Lookup, IsMeta, Separated;
    }
  }

  lemma NotMeta(g: Geometry, img: Image, inUse: set<Zone>, others: set<Zone>, z: Zone)
    requires Mapped(g, img, inUse, others) && z in others
    ensures z in inUse && !IsMeta(g, img, z)
  {
    hide Target;
  }

  // The buffer as written back: the chunk, and around it either the old bytes
  // of the block or zeros; what a NO_READ buffer held is gone.
  lemma ChunkDone(g: Geometry, img: Image, img1: Image, inUse: set<Zone>, others: set<Zone>, size: nat,
                  position: nat, data: Bytes, b: Zone, x: Bytes)
    requires Formatted(g, img) && Mapped(g, img1, inUse, others) && Formatted(g, img1) && SameBytes(g, img, img1)
    requires data != [] && BlockOff(g, position) + |data| <= g.BlockSize()
    requires BlockNo(g, position) < g.Capacity()
    requires b != NO_ZONE && b == Lookup(g, img1, BlockNo(g, position))
    requires b in img1.disk && |img1.disk[b]| == |x| == g.BlockSize()
    requires forall j: nat | j < |x| :: x[j] ==
               if BlockOff(g, position) <= j < BlockOff(g, position) + |data| then data[j - BlockOff(g, position)]
               else if Blanks(g, size, position, |data|) then 0 else img1.disk[b][j]
    ensures var img' := WithBlock(img1, b, x);
            Mapped(g, img', inUse, others) && Formatted(g, img') && ChunkWritten(g, img, img', size, position, data)
  {
    var k, off := BlockNo(g, position), BlockOff(g, position);
    WrittenBytes(g, img1, inUse, others, k, x);
    MappedBytes(g, img1, inUse, others, k);
    var img' := WithBlock(img1, b, x);
    forall q: nat
      ensures ByteAt(g, img', q) ==
        if position <= q < position + |data| then data[q - position]
        else if Blanks(g, size, position, |data|) && BlockNo(g, q) == k then 0
        else ByteAt(g, img, q)
    {
      ChunkInBlock(g, position, |data|, q);
      assert BlockOff(g, q) < g.BlockSize();
      hide BlockNo, BlockOff, ByteAt, Mapped, Lookup, Blanks;
    }
  }

  // The file's bytes are those of s, and zeros after.
  ghost predicate HoldsFlat(g: Geometry, img: Image, s: Bytes)
    requires Formatted(g, img)
  {
    forall q: nat :: ByteAt(g, img, q) == FlatByte(s, q)
  }

  // Blanking the rest of a block in rw_chunk hits only bytes that are zero
  // already: the file ends before them. After promotion i_size is 0 although
  // the file is not empty, but then the write covers the old bytes.
  ghost predicate BlankingSafe(g: Geometry, size: nat, s: Bytes, position: nat, n: nat) {
    size == |s| || (|s| <= IMMEDIATE_MAX < g.BlockSize() && position + n > IMMEDIATE_MAX)
  }

  lemma ChunkStep(g: Geometry, img: Image, img': Image, size: nat, s: Bytes, p: nat, data: Bytes, cum: nat, chunk: nat)
    requires Formatted(g, img) && Formatted(g, img')
    requires cum + chunk <= |data| && 0 < chunk
    requires BlankingSafe(g, size, s, p, |data|)
    requires var left, room := |data| - cum, g.BlockSize() - BlockOff(g, p + cum);
             chunk == if left < room then left else room
    requires Stored(g, img, s, p, data, cum)
    requires ChunkWritten(g, img, img', size, p + cum, data[cum..cum + chunk])
    ensures Stored(g, img', s, p, data, cum + chunk)
  {
    BlockStep(g, p + cum);
    var position := p + cum;
    var w, w' := FlatWrite(s, p, data[..cum]), FlatWrite(s, p, data[..cum + chunk]);
    forall q: nat ensures ByteAt(g, img', q) == FlatByte(w', q) {
      ChunkInBlock(g, position, chunk, q);
      BlockStart(g, position, q);
      assert ByteAt(g, img, q) == FlatByte(w, q);
      hide ByteAt, BlockNo, BlockOff, HoldsFlat;
    }
  }

  // A block that starts at position has no byte before it; a block start other
  // than 0 is at least a block away from it.
  lemma BlockStart(g: Geometry, position: nat, q: nat)
    requires 0 < g.nr
    ensures BlockOff(g, position) == 0 && BlockNo(g, q) == BlockNo(g, position) ==> position <= q
    ensures BlockOff(g, position) == 0 && position > 0 ==> position >= g.BlockSize()
  {
    var bs := g.BlockSize();
    assert position == bs * BlockNo(g, position) + BlockOff(g, position);
    assert q == bs * BlockNo(g, q) + BlockOff(g, q);
    if BlockNo(g, position) > 0 { MulMono(bs, 1, BlockNo(g, position)); }
  }

  // One turn of the loop: a chunk at position0 + cumIo.
  method TransferOne(rip: Inode, rw: Transfer, position0: nat, data: Bytes, out0: Bytes, cumIo: nat, off: nat, chunk: nat,
                     ghost s: Bytes, ghost others: set<Zone>)
    returns (r: int, out: Bytes)
    requires rip.mode == REGULAR && rip.ValidMap(others) && Formatted(rip.sp.g, rip.Img()) && rip.sp.zoneBlocks == 1
    requires off == BlockOff(rip.sp.g, position0 + cumIo) && 0 < chunk && off + chunk <= rip.sp.g.BlockSize()
    requires BlockNo(rip.sp.g, position0 + cumIo) < rip.sp.g.Capacity()
    requires rw == READING ==>
               && HoldsFlat(rip.sp.g, rip.Img(), s) && position0 + cumIo + chunk <= |s|
               && Fetched(s, position0, out0, cumIo)
    requires rw == WRITING ==>
               && Stored(rip.sp.g, rip.Img(), s, position0, data, cumIo)
               && BlankingSafe(rip.sp.g, rip.size, s, position0, |data|)
               && cumIo + chunk <= |data| && (chunk == |data| - cumIo || chunk == rip.sp.g.BlockSize() - off)
    modifies rip`izone, rip`zsearch, rip.sp
    ensures rip.ValidMap(others) && Formatted(rip.sp.g, rip.Img())
    ensures OthersKept(old(rip.sp.disk), rip.sp.disk, others)
    ensures rw == READING ==>
              && r == OK && rip.Img() == old(rip.Img()) && rip.sp.inUse == old(rip.sp.inUse)
              && rip.zsearch == old(rip.zsearch)
              && Fetched(s, position0, out, cumIo + chunk)
    ensures rw == WRITING && r == OK ==> Stored(rip.sp.g, rip.Img(), s, position0, data, cumIo + chunk)
    ensures rw == WRITING && r != OK ==>
              && r == rip.sp.errCode
              && Stored(rip.sp.g, rip.Img(), s, position0, data, cumIo)
              && AlmostFull(rip.sp.g, rip.sp.inUse)
              && InHole(rip.sp.g, old(rip.Img()), position0 + cumIo) && InHole(rip.sp.g, rip.Img(), position0 + cumIo)
  {
    var g := rip.sp.g;
    ghost var img := rip.Img();
    hide ByteAt, Mapped, Lookup, BlockOff, BlockNo, Stored, Fetched, ChunkWritten, SameBytes, HoldsFlat, Delivers, BlankingSafe;
    BlockStep(g, position0 + cumIo);
    var part := if rw == WRITING then data[cumIo..cumIo + chunk] else [];
    var got;
    r, got := RwChunk(rip, position0 + cumIo, off, chunk, rw, part, others);
    assert Formatted(g, rip.Img()) by { MappedFormatted(g, rip.Img(), rip.sp.inUse, others); }
    hide Formatted;
    out := out0 + got;
    if rw == READING {
      ReadStep(g, img, s, position0, out0, cumIo, got);
    } else if r == OK {
      ChunkStep(g, img, rip.Img(), rip.size, s, position0, data, cumIo, chunk);
    } else {
      SameBytesFlat(g, img, rip.Img(), s, position0, data, cumIo);
    }
  }

  lemma MappedFormatted(g: Geometry, img: Image, inUse: set<Zone>, others: set<Zone>)
    requires Mapped(g, img, inUse, others)
    ensures Formatted(g, img)
  {
  }

  /** The loop that splits a transfer into chunks that do not span two blocks. */
  method TransferChunks(rip: Inode, rw: Transfer, position0: nat, nrbytes0: nat, data: Bytes, fSize: nat,
                        ghost s: Bytes, ghost others: set<Zone>)
    returns (r: int, out: Bytes, cumIo: nat)
    requires rip.mode == REGULAR && rip.ValidMap(others) && Formatted(rip.sp.g, rip.Img()) && rip.sp.zoneBlocks == 1
    requires HoldsFlat(rip.sp.g, rip.Img(), s)
    requires fSize == |s| <= rip.sp.g.MaxBytes()
    requires rw == WRITING ==>
               && |data| == nrbytes0 && position0 + nrbytes0 <= rip.sp.g.MaxBytes()
               && BlankingSafe(rip.sp.g, rip.size, s, position0, nrbytes0)
    modifies rip`izone, rip`zsearch, rip.sp
    ensures rip.ValidMap(others) && Formatted(rip.sp.g, rip.Img())
    ensures OthersKept(old(rip.sp.disk), rip.sp.disk, others)
    ensures rw == READING ==>
              && r == OK && rip.Img() == old(rip.Img()) && rip.sp.inUse == old(rip.sp.inUse)
              && rip.zsearch == old(rip.zsearch)
              && out == FlatRead(s, position0, nrbytes0) && cumIo == |out|
    ensures rw == WRITING ==>
              && cumIo <= nrbytes0
              && HoldsFlat(rip.sp.g, rip.Img(), FlatWrite(s, position0, data[..cumIo]))
              && (r == OK <==> cumIo == nrbytes0)
              && (r != OK ==> r == rip.sp.errCode && AlmostFull(rip.sp.g, rip.sp.inUse) && InHole(rip.sp.g, rip.Img(), position0 + cumIo))
              && (r != OK && cumIo > 0 ==> BlockOff(rip.sp.g, position0 + cumIo) == 0)
              && (r != OK && cumIo == 0 ==> InHole(rip.sp.g, old(rip.Img()), position0))
  {
    hide ByteAt, Mapped, BlockOff, BlockNo, Formatted, BlankingSafe, Stored, Fetched, HoldsFlat, InHole, AlmostFull, OthersKept;
    r, out, cumIo := OK, [], 0;
    var g := rip.sp.g;
    var position: nat, nrbytes: nat := position0, nrbytes0;
    FlatStart(g, rip.Img(), s, position0, data);
    AlwaysKept(rip.sp.disk, others);
    while nrbytes > 0
      invariant cumIo + nrbytes == nrbytes0 && position == position0 + cumIo
      invariant rip.ValidMap(others) && Formatted(g, rip.Img()) && r == OK
      invariant OthersKept(old(rip.sp.disk), rip.sp.disk, others)
      invariant rw == READING ==>
                  && rip.Img() == old(rip.Img()) && rip.sp.inUse == old(rip.sp.inUse)
                  && rip.zsearch == old(rip.zsearch)
                  && Fetched(s, position0, out, cumIo)
      invariant rw == WRITING ==> Stored(g, rip.Img(), s, position0, data, cumIo)
      invariant cumIo == 0 ==> rip.Img() == old(rip.Img())
    {
      var off := BlockOff(g, position);
      BlockStep(g, position);
      var chunk := if nrbytes < g.BlockSize() - off then nrbytes else g.BlockSize() - off;
      if rw == READING {
        if position >= fSize { break; }
        var bytesLeft := fSize - position;
        if chunk > bytesLeft { chunk := bytesLeft; }
      }
      BelowCapacity(g, position);
      ghost var disk := rip.sp.disk;
      r, out := TransferOne(rip, rw, position0, data, out, cumIo, off, chunk, s, others);
      OthersKeptThrough(old(rip.sp.disk), disk, rip.sp.disk, others);
      if r != OK {
        break;
      }
      nrbytes := nrbytes - chunk;
      cumIo := cumIo + chunk;
      position := position + chunk;
    }
    if rw == READING { ReadEnd(s, position0, nrbytes0, out, cumIo); }
    else { WriteEnd(g, rip.Img(), s, position0, data, cumIo); }
  }

  // The block of position p does not exist.
  ghost predicate InHole(g: Geometry, img: Image, p: nat)
    requires Formatted(g, img)
  {
    BlockNo(g, p) < g.Capacity() ==> Lookup(g, img, BlockNo(g, p)) == NO_ZONE
  }

  // Progress of the loop: cum bytes of data are in the file.
  ghost predicate Stored(g: Geometry, img: Image, s: Bytes, p: nat, data: Bytes, cum: nat)
    requires Formatted(g, img)
  {
    && cum <= |data|
    && HoldsFlat(g, img, FlatWrite(s, p, data[..cum]))
    && (0 < cum < |data| ==> BlockOff(g, p + cum) == 0)
  }

  ghost predicate Fetched(s: Bytes, p: nat, out: Bytes, cum: nat) {
    out == FlatRead(s, p, cum) && cum == |out|
  }

  lemma FlatStart(g: Geometry, img: Image, s: Bytes, p: nat, data: Bytes)
    requires Formatted(g, img) && HoldsFlat(g, img, s)
    ensures 0 < g.nr && Stored(g, img, s, p, data, 0) && Fetched(s, p, [], 0)
  {
    hide ByteAt;
  }

  lemma BlockStep(g: Geometry, p: nat)
    requires 0 < g.nr
    ensures BlockOff(g, p) < g.BlockSize()
    ensures BlockOff(g, p + (g.BlockSize() - BlockOff(g, p))) == 0
  {
    var bs := g.BlockSize();
    Distribute(bs, BlockNo(g, p));
    DivModOf(BlockNo(g, p) + 1, bs, 0);
  }

  lemma SameBytesFlat(g: Geometry, img: Image, img': Image, s: Bytes, p: nat, data: Bytes, cum: nat)
    requires Formatted(g, img) && Formatted(g, img')
    requires Stored(g, img, s, p, data, cum) && SameBytes(g, img, img')
    ensures Stored(g, img', s, p, data, cum)
  {
    hide ByteAt;
  }

  lemma ReadStep(g: Geometry, img: Image, s: Bytes, p: nat, out: Bytes, cum: nat, got: Bytes)
    requires Formatted(g, img) && HoldsFlat(g, img, s) && Fetched(s, p, out, cum)
    requires p + cum + |got| <= |s| && Delivers(g, img, p + cum, got) && got != []
    ensures Fetched(s, p, out + got, cum + |got|)
  {
    forall i: nat | i < |got| ensures got[i] == s[p + cum + i] {
      var q := p + cum + i;
      assert got[q - (p + cum)] == ByteAt(g, img, q);
      hide ByteAt;
    }
  }

  // Stopping early, at the end of the file, or with the request served.
  lemma ReadEnd(s: Bytes, p: nat, n: nat, out: Bytes, cum: nat)
    requires cum <= n && (cum == n || p + cum >= |s|) && Fetched(s, p, out, cum)
    ensures out == FlatRead(s, p, n) && cum == |out|
  {
  }

  lemma WriteEnd(g: Geometry, img: Image, s: Bytes, p: nat, data: Bytes, cum: nat)
    requires Formatted(g, img) && Stored(g, img, s, p, data, cum)
    ensures cum <= |data| && HoldsFlat(g, img, FlatWrite(s, p, data[..cum]))
    ensures 0 < cum < |data| ==> BlockOff(g, p + cum) == 0
  {
  }

  /** --- Whole files --- */

  // The file as a sequence of bytes: through the zone tree, or from i_zone.
  ghost function Contents(rip: Inode): Bytes
    requires Formatted(rip.sp.g, rip.Img()) && (rip.mode == IMMEDIATE ==> rip.size <= |rip.izone|)
    reads rip, rip.sp
  {
    if rip.mode == IMMEDIATE then rip.izone[..rip.size] else FlatOf(rip.sp.g, rip.Img(), rip.size)
  }

  ghost function FlatOf(g: Geometry, img: Image, size: nat): (s: Bytes)
    requires Formatted(g, img)
    ensures |s| == size
  {
    seq(size, (q: nat) => ByteAt(g, img, q))
  }

  // A consistent file: whatever lies past its end is zero.
  ghost predicate ValidFile(rip: Inode, others: set<Zone>)
    reads rip, rip.sp
  {
    var g := rip.sp.g;
    && rip.sp.zoneBlocks == 1 && 0 < g.ndz && IMMEDIATE_MAX < g.BlockSize() && IMMEDIATE_MAX <= 4 * (g.ndz + 3)
    && rip.sp.maxSize <= g.MaxBytes()
    && Formatted(g, rip.Img())
    && match rip.mode
       case REGULAR =>
         && Mapped(g, rip.Img(), rip.sp.inUse, others)
         && rip.size <= g.MaxBytes()
         && HoldsFlat(g, rip.Img(), FlatOf(g, rip.Img(), rip.size))
       case IMMEDIATE =>
         && rip.sp.inUse == others && (forall z | z in others :: g.InRange(z))
         && rip.size <= IMMEDIATE_MAX
         && (forall q: nat | rip.size <= q < |rip.izone| :: rip.izone[q] == 0)
  }

  // The inode's zone numbers are cleared one after the other.
  method RemoveInodeEntry(rip: Inode)
    requires |rip.izone| == 4 * (rip.sp.g.ndz + 3)
    modifies rip`size, rip`izone
    ensures rip.size == 0 && rip.izone == Zeros(4 * (rip.sp.g.ndz + 3)) && |rip.izone| == |old(rip.izone)|
  {
    rip.size := 0;
    var n := rip.sp.g.ndz + 3;
    var i := 0;
    while i < n
      invariant 0 <= i <= n && |rip.izone| == 4 * n && rip.size == 0
      invariant forall j: nat | j < i :: Word(rip.izone, j) == NO_ZONE
    {
      ghost var before := rip.izone;
      SetInodeZone(rip, i, NO_ZONE);
      WordsOfPut(rip.sp.g, before, i, NO_ZONE);
      i := i + 1;
    }
    AllWordsZero(rip.izone, n);
  }

  lemma EmptyInode(g: Geometry, img: Image, inUse: set<Zone>)
    requires Formatted(g, img) && img.izone == Zeros(4 * (g.ndz + 3))
    requires forall z | z in inUse :: g.InRange(z)
    ensures Mapped(g, img, inUse, inUse)
    ensures forall k: nat | k < g.Capacity() :: Lookup(g, img, k) == NO_ZONE
    ensures HoldsFlat(g, img, [])
  {
    hide Target, Word, Zeros;
    NoReferences(g, img, inUse);
  }

  // The old bytes, all in the first block.
  lemma PromotedBytes(g: Geometry, img: Image, inUse: set<Zone>, others: set<Zone>, b: Zone, x: Bytes, s: Bytes)
    requires Mapped(g, img, inUse, others) && Formatted(g, img) && 0 < g.Capacity() && Lookup(g, img, 0) == b != NO_ZONE
    requires HoldsFlat(g, img, []) && |s| <= |x| == g.BlockSize()
    requires forall j: nat | j < |x| :: x[j] == FlatByte(s, j)
    ensures var img' := WithBlock(img, b, x);
            Mapped(g, img', inUse, others) && Formatted(g, img') && HoldsFlat(g, img', s) && !InHole(g, img', 0)
  {
    WrittenBytes(g, img, inUse, others, 0, x);
    InFirstBlock(g, 0);
    var img' := WithBlock(img, b, x);
    hide ByteAt, Lookup, Mapped, BlockNo, BlockOff;
    forall q: nat ensures ByteAt(g, img', q) == FlatByte(s, q) {
      assert ByteAt(g, img, q) == 0;
      InFirstBlock(g, q);
    }
  }

  lemma InFirstBlock(g: Geometry, q: nat)
    requires 0 < g.nr
    ensures BlockNo(g, q) == 0 <==> q < g.BlockSize()
    ensures q < g.BlockSize() ==> BlockOff(g, q) == q
  {
    if q < g.BlockSize() { DivModOf(0, g.BlockSize(), q); }
  }

  /** An immediate file that outgrows the inode becomes a regular one: its bytes
      move to a first block. Without a free zone they are gone, because the
      inode was cleared before the block was asked for. */
  method Promote(rip: Inode, ghost others: set<Zone>) returns (ok: bool)
    requires ValidFile(rip, others) && rip.mode == IMMEDIATE
    modifies rip, rip.sp
    ensures rip.mode == REGULAR && rip.size == 0
    ensures rip.ValidMap(others) && Formatted(rip.sp.g, rip.Img())
    ensures OthersKept(old(rip.sp.disk), rip.sp.disk, others)
    ensures ok <==> !Full(rip.sp.g, old(rip.sp.inUse))
    ensures HoldsFlat(rip.sp.g, rip.Img(), if ok then old(rip.izone[..rip.size]) else [])
    ensures HoldsFlat(rip.sp.g, rip.Img(), old(rip.izone[..rip.size]))
       <==> !Full(rip.sp.g, old(rip.sp.inUse)) || AllZero(old(rip.izone[..rip.size]))
    ensures ok ==> !InHole(rip.sp.g, rip.Img(), 0)
    ensures !ok ==> rip.sp.errCode != OK
  {
    hide Lookup, Acquired, ByteAt, Mapped, HoldsFlat, Zeros;
    var sp := rip.sp;
    var g := sp.g;
    var buffer := rip.izone[..rip.size];
    RemoveInodeEntry(rip);
    rip.mode := REGULAR;
    EmptyInode(g, rip.Img(), sp.inUse);
    ghost var img, inUse := rip.Img(), sp.inUse;
    FirstBlock(rip);
    var b := NewBlock(rip, 0, others);
    NewBlockBytes(g, img, inUse, others, 0, b, rip.Img(), sp.inUse);
    if b == NO_BLOCK {
      FirstAcquired(g, img, inUse, others, b, rip.Img(), sp.inUse);
      LostUnlessZero(g, rip.Img(), buffer);
      return false;
    }
    FirstAcquired(g, img, inUse, others, b, rip.Img(), sp.inUse);
    ghost var img1 := rip.Img();
    NotOthers(g, img1, sp.inUse, others, 0);
    CopyIn(sp, b, 0, buffer, false);
    assert rip.Img() == WithBlock(img1, b, sp.disk[b]);
    PromotedBytes(g, img1, sp.inUse, others, b, sp.disk[b], buffer);
    return true;
  }

  predicate AllZero(s: Bytes) {
    forall q :: 0 <= q < |s| ==> s[q] == 0
  }

  // A file of zeros reads like any other file of zeros.
  lemma LostUnlessZero(g: Geometry, img: Image, s: Bytes)
    requires Formatted(g, img) && HoldsFlat(g, img, [])
    ensures HoldsFlat(g, img, s) <==> AllZero(s)
  {
    hide ByteAt;
    if HoldsFlat(g, img, s) {
      forall q: nat | q < |s| ensures s[q] == 0 {
        assert ByteAt(g, img, q) == FlatByte([], q) && ByteAt(g, img, q) == FlatByte(s, q);
      }
    }
  }

  lemma FirstBlock(rip: Inode)
    requires 0 < rip.sp.g.nr && 0 < rip.sp.zoneBlocks
    ensures ZoneAt(rip.sp, 0) == 0 < rip.sp.g.Capacity()
  {
  }

  lemma FirstAcquired(g: Geometry, img: Image, inUse: set<Zone>, others: set<Zone>, b: nat, img': Image, inUse': set<Zone>)
    requires Mapped(g, img, inUse, others) && 0 < g.ndz && Lookup(g, img, 0) == NO_ZONE && HoldsFlat(g, img, [])
    requires Acquired(g, img, inUse, others, 0, b, img', inUse')
    ensures Formatted(g, img') && HoldsFlat(g, img', [])
    ensures b == NO_BLOCK <==> Full(g, inUse)
    ensures b != NO_BLOCK ==> b < 0x1_0000_0000 && b in img'.disk && |img'.disk[b]| == g.BlockSize()
                              && forall j: nat | j < g.BlockSize() :: img'.disk[b][j] == 0
  {
    AcquiredBytes(g, img, inUse, others, 0, b, img', inUse');
    hide ByteAt, Lookup;
  }

  lemma FlatOfHeld(g: Geometry, img: Image, s: Bytes, size: nat)
    requires Formatted(g, img) && HoldsFlat(g, img, s) && |s| <= size
    ensures HoldsFlat(g, img, FlatOf(g, img, size))
    ensures FlatOf(g, img, size) == FlatWrite(s, size, [])
  {
    hide ByteAt;
  }

  // After the loop: the size is raised to the final position if that is larger.
  lemma SizeUpdated(g: Geometry, img: Image, s: Bytes, p: nat, data: Bytes, cum: nat, size: nat)
    requires Formatted(g, img) && cum <= |data|
    requires HoldsFlat(g, img, FlatWrite(s, p, data[..cum]))
    requires size == if p + cum > |s| then p + cum else |s|
    ensures FlatOf(g, img, size) == FlatWrite(s, p, data[..cum])
    ensures HoldsFlat(g, img, FlatOf(g, img, size))
  {
    var w := FlatWrite(s, p, data[..cum]);
    FlatOfHeld(g, img, w, size);
    assert FlatWrite(w, size, []) == w;
  }

  // Bytes copied straight into i_zone.
  lemma ImmediateWritten(izone: Bytes, size: nat, p: nat, data: Bytes)
    requires size <= IMMEDIATE_MAX <= |izone| && p + |data| <= IMMEDIATE_MAX
    requires forall q: nat | size <= q < |izone| :: izone[q] == 0
    ensures var izone' := izone[..p] + data + izone[p + |data|..];
            var size' := if p + |data| > size then p + |data| else size;
            && |izone'| == |izone|
            && izone'[..size'] == FlatWrite(izone[..size], p, data)
            && forall q: nat | size' <= q < |izone'| :: izone'[q] == 0
  {
  }

  // What is left of a write request after the immediate cases: the chunk loop
  // and the new size. The size in the inode is 0 if the file was just promoted.
  method WriteRegular(rip: Inode, position0: nat, data: Bytes, fSize: nat, ghost s: Bytes, ghost others: set<Zone>)
    returns (r: int, cumIo: nat)
    requires rip.mode == REGULAR && rip.ValidMap(others) && Formatted(rip.sp.g, rip.Img()) && rip.sp.zoneBlocks == 1
    requires HoldsFlat(rip.sp.g, rip.Img(), s) && fSize == |s| <= rip.sp.g.MaxBytes()
    requires position0 + |data| <= rip.sp.g.MaxBytes()
    requires rip.size == fSize
             || (rip.size == 0 && fSize <= IMMEDIATE_MAX < rip.sp.g.BlockSize() && position0 + |data| > IMMEDIATE_MAX
                 && !InHole(rip.sp.g, rip.Img(), 0))
    modifies rip`izone, rip`zsearch, rip`size, rip.sp
    ensures rip.ValidMap(others) && Formatted(rip.sp.g, rip.Img()) && rip.size <= rip.sp.g.MaxBytes()
    ensures OthersKept(old(rip.sp.disk), rip.sp.disk, others)
    ensures r != OK ==> r == rip.sp.errCode
    ensures Written(rip.sp.g, rip.Img(), rip.sp.inUse, s, position0, data, r, cumIo, FlatOf(rip.sp.g, rip.Img(), rip.size))
    ensures HoldsFlat(rip.sp.g, rip.Img(), FlatOf(rip.sp.g, rip.Img(), rip.size))
  {
    hide ByteAt, HoldsFlat, Mapped, Lookup, BlockOff, FlatOf;
    var g := rip.sp.g;
    ghost var img := rip.Img();
    var out;
    r, out, cumIo := TransferChunks(rip, WRITING, position0, |data|, data, fSize, s, others);
    var position := position0 + cumIo;
    if rip.size != fSize {
      if position <= fSize { PastFirstBlock(g, img, position0, cumIo); }
      assert position > fSize;
    }
    SizeUpdated(g, rip.Img(), s, position0, data, cumIo, if position > fSize then position else fSize);
    if position > fSize { rip.size := position; }
  }

  // The outcome of a write to a file that held s: a prefix of whole chunks of
  // the data is in the file, all of it unless the volume ran out of zones.
  ghost predicate Written(g: Geometry, img: Image, inUse: set<Zone>, s: Bytes, p: nat, data: Bytes,
                          r: int, cumIo: nat, s': Bytes)
    requires 0 < g.nr
  {
    && cumIo <= |data|
    && s' == FlatWrite(s, p, data[..cumIo])
    && (r == OK <==> cumIo == |data|)
    && (r != OK ==> AlmostFull(g, inUse))
    && (r != OK && cumIo > 0 ==> BlockOff(g, p + cumIo) == 0)
  }

  // A write stopped within the first block did not even start, and the block is missing.
  lemma PastFirstBlock(g: Geometry, img: Image, p: nat, cum: nat)
    requires Formatted(g, img) && p + cum < g.BlockSize()
    requires cum > 0 ==> BlockOff(g, p + cum) == 0
    requires cum == 0 ==> InHole(g, img, p)
    ensures InHole(g, img, 0)
  {
    InFirstBlock(g, p + cum);
    InFirstBlock(g, 0);
  }

  // A whole write request.
  method WriteFile(rip: Inode, position0: nat, data: Bytes, ghost others: set<Zone>)
    returns (r: int, cumIo: nat)
    requires ValidFile(rip, others)
    modifies rip, rip.sp
    ensures ValidFile(rip, others) && OthersKept(old(rip.sp.disk), rip.sp.disk, others)
    ensures rip.sp.readOnly || position0 + |data| > rip.sp.maxSize ==>
              && r == (if rip.sp.readOnly then EROFS else EFBIG) && cumIo == 0
              && rip.mode == old(rip.mode) && Contents(rip) == old(Contents(rip)) && rip.sp.inUse == old(rip.sp.inUse)
              && rip.sp.disk == old(rip.sp.disk)
    ensures !rip.sp.readOnly && position0 + |data| <= rip.sp.maxSize ==>
              && (r != OK ==> r == rip.sp.errCode)
              && rip.mode == (if old(rip.mode) == IMMEDIATE && position0 + |data| <= IMMEDIATE_MAX
                              then IMMEDIATE else REGULAR)
              && (if old(rip.mode) == IMMEDIATE && position0 + |data| > IMMEDIATE_MAX && Full(rip.sp.g, old(rip.sp.inUse))
                  then r != OK && cumIo == 0 && Contents(rip) == []
                  else Written(rip.sp.g, rip.Img(), rip.sp.inUse, old(Contents(rip)), position0, data, r, cumIo, Contents(rip)))
  {
    var sp := rip.sp;
    var g := sp.g;
    var fSize := rip.size;
    ghost var s := Contents(rip);
    hide ByteAt, HoldsFlat, Mapped, Lookup, BlockOff, FlatOf, Written, InHole;
    if sp.readOnly { return EROFS, 0; }
    if position0 + |data| > sp.maxSize { return EFBIG, 0; }
    if position0 > fSize { ClearZone(rip); }
    if rip.mode == IMMEDIATE {
      if position0 + |data| <= IMMEDIATE_MAX {
        ImmediateWritten(rip.izone, rip.size, position0, data);
        rip.izone := rip.izone[..position0] + data + rip.izone[position0 + |data|..];
        if position0 + |data| > fSize { rip.size := position0 + |data|; }
        AllWritten(g, rip.Img(), sp.inUse, s, position0, data, Contents(rip));
        return OK, |data|;
      }
      var ok := Promote(rip, others);
      if !ok {
        EmptyFlat(g, rip.Img());
        return sp.errCode, 0;
      }
    }
    ghost var disk := sp.disk;
    r, cumIo := WriteRegular(rip, position0, data, fSize, s, others);
    OthersKeptThrough(old(sp.disk), disk, sp.disk, others);
  }

  lemma AllWritten(g: Geometry, img: Image, inUse: set<Zone>, s: Bytes, p: nat, data: Bytes, s': Bytes)
    requires 0 < g.nr && s' == FlatWrite(s, p, data)
    ensures Written(g, img, inUse, s, p, data, OK, |data|, s')
  {
    assert data[..|data|] == data;
  }

  lemma EmptyFlat(g: Geometry, img: Image)
    requires Formatted(g, img) && HoldsFlat(g, img, [])
    ensures FlatOf(g, img, 0) == [] && HoldsFlat(g, img, FlatOf(g, img, 0))
  {
    hide ByteAt;
  }

  // A whole read request.
  method ReadFile(rip: Inode, position0: nat, nrbytes0: nat, ghost others: set<Zone>)
    returns (out: Bytes, cumIo: nat)
    requires ValidFile(rip, others)
    modifies rip`izone, rip`zsearch, rip.sp
    ensures ValidFile(rip, others) && cumIo == |out|
    ensures Contents(rip) == old(Contents(rip)) && rip.sp.inUse == old(rip.sp.inUse) && rip.sp.disk == old(rip.sp.disk)
    ensures out == if rip.mode == IMMEDIATE && position0 < rip.size then Contents(rip)
                   else FlatRead(Contents(rip), position0, nrbytes0)
  {
    var fSize := rip.size;
    ghost var s := Contents(rip);
    hide ByteAt, HoldsFlat, Mapped, Lookup, BlockOff, FlatOf;
    if rip.mode == IMMEDIATE {
      if position0 < fSize {
        return rip.izone[..fSize], fSize;
      }
      // Past its end the chunk loop stops before the first chunk.
      return [], 0;
    }
    var r;
    r, out, cumIo := TransferChunks(rip, READING, position0, nrbytes0, [], fSize, s, others);
  }

  /** fs_readwrite on a regular or an immediate file: position0, nrbytes0 and, to
      write, the caller's bytes come from the request; position is what VFS is
      told the file position has become. */
  method FsReadWrite(rip: Inode, rw: Transfer, position0: nat, nrbytes0: nat, data: Bytes, ghost others: set<Zone>)
    returns (r: int, out: Bytes, cumIo: nat, position: nat)
    requires ValidFile(rip, others) && (rw == WRITING ==> |data| == nrbytes0)
    modifies rip, rip.sp
    ensures ValidFile(rip, others) && OthersKept(old(rip.sp.disk), rip.sp.disk, others)
    ensures position == position0 + cumIo
    ensures rw == READING ==>
              && r == OK && cumIo == |out|
              && rip.mode == old(rip.mode) && Contents(rip) == old(Contents(rip)) && rip.sp.inUse == old(rip.sp.inUse)
              && rip.sp.disk == old(rip.sp.disk)
              && out == (if rip.mode == IMMEDIATE && position0 < rip.size then Contents(rip)
                         else FlatRead(Contents(rip), position0, nrbytes0))
    ensures rw == WRITING && (rip.sp.readOnly || position0 + nrbytes0 > rip.sp.maxSize) ==>
              && r == (if rip.sp.readOnly then EROFS else EFBIG) && cumIo == 0
              && rip.mode == old(rip.mode) && Contents(rip) == old(Contents(rip)) && rip.sp.inUse == old(rip.sp.inUse)
              && rip.sp.disk == old(rip.sp.disk)
    ensures rw == WRITING && !rip.sp.readOnly && position0 + nrbytes0 <= rip.sp.maxSize ==>
              && (r != OK ==> r == rip.sp.errCode)
              && rip.mode == (if old(rip.mode) == IMMEDIATE && position0 + nrbytes0 <= IMMEDIATE_MAX
                              then IMMEDIATE else REGULAR)
              && (if old(rip.mode) == IMMEDIATE && position0 + nrbytes0 > IMMEDIATE_MAX && Full(rip.sp.g, old(rip.sp.inUse))
                  then r != OK && cumIo == 0 && Contents(rip) == []
                  else Written(rip.sp.g, rip.Img(), rip.sp.inUse, old(Contents(rip)), position0, data, r, cumIo, Contents(rip)))
  {
    hide ByteAt, HoldsFlat, Mapped, Lookup, BlockOff, FlatOf, Written, Contents, ValidFile;
    if rw == READING {
      out, cumIo := ReadFile(rip, position0, nrbytes0, others);
      r := OK;
    } else {
      r, cumIo := WriteFile(rip, position0, data, others);
      out := [];
    }
    position := position0 + cumIo;
  }
}
