/** Looking up the disk block behind a file position. */
module MfsReadMap {
  import opened Arithmetic
  import opened ZoneWords
  import opened BlockMap
  import opened WriteMapSpec
  import opened MfsVolume

  // A zone number in an indirect block that is not legal makes the server panic.
  method RdIndir(sp: Volume, t: Zone, index: nat) returns (z: Zone)
    requires t in sp.disk && |sp.disk[t]| == sp.g.BlockSize() && index < sp.g.nr
    requires Word(sp.disk[t], index) == NO_ZONE || sp.g.InRange(Word(sp.disk[t], index))
    ensures z == Word(sp.disk[t], index)
  {
    z := Word(sp.disk[t], index);
  }

  // The block of zone z that holds the position.
  function BlockIn(sp: Volume, position: nat, z: Zone): nat
    requires 0 < sp.g.nr && 0 < sp.zoneBlocks
  {
    if z == NO_ZONE then NO_BLOCK else z * sp.zoneBlocks + position / sp.g.BlockSize() % sp.zoneBlocks
  }

  lemma BlockInZone(sp: Volume, position: nat)
    requires 0 < sp.g.nr && 0 < sp.zoneBlocks
    ensures sp.g.BlockSize() > 0
    ensures Div(Div(position, sp.g.BlockSize()), sp.zoneBlocks) == ZoneAt(sp, position)
    ensures BlockIn(sp, position, NO_ZONE) == NO_BLOCK
    ensures var blockPos := Div(position, sp.g.BlockSize());
            var boff := blockPos - ZoneAt(sp, position) * sp.zoneBlocks;
            && 0 <= boff
            && forall z: Zone | z != NO_ZONE :: BlockIn(sp, position, z) == z * sp.zoneBlocks + boff
  {
    Whole(BlockOf(sp, position), sp.zoneBlocks);
  }

  // That block holds the byte: of the blocks of the file, counted through its zones, it
  // is the one that begins no more than a block before the position.
  lemma BlockHolds(sp: Volume, position: nat, z: Zone)
    requires 0 < sp.g.nr && 0 < sp.zoneBlocks && z != NO_ZONE
    ensures var o := BlockIn(sp, position, z) - z * sp.zoneBlocks;
            && 0 <= o < sp.zoneBlocks
            && BlockOf(sp, position) == sp.zoneBlocks * ZoneAt(sp, position) + o
    ensures var bs, q := sp.g.BlockSize(), BlockOf(sp, position); bs * q <= position < bs * q + bs
  {
    Whole(position, sp.g.BlockSize());
    Whole(BlockOf(sp, position), sp.zoneBlocks);
  }

  function BlockOf(sp: Volume, position: nat): nat
    requires 0 < sp.g.nr
  {
    Div(position, sp.g.BlockSize())
  }

  lemma Whole(x: nat, n: nat)
    requires 0 < n
    ensures n * Div(x, n) + x % n == x && 0 <= x % n < n
  {
  }

  /** Entry nr of a double indirect block is past its end: the positions, of file
      zone k, for which read_map stays away from it. */
  ghost predicate ReadableZone(g: Geometry, img: Image, k: nat)
    requires 0 < g.nr && |img.izone| == 4 * (g.ndz + 3)
  {
    k < g.Capacity() || g.Capacity() + g.nr <= k || Target(g, img, Double) == NO_ZONE
  }

  ghost predicate Readable(rip: Inode, position: nat)
    requires 0 < rip.sp.g.nr && 0 < rip.sp.zoneBlocks && |rip.izone| == 4 * (rip.sp.g.ndz + 3)
    reads rip, rip.sp
  {
    ReadableZone(rip.sp.g, rip.Img(), ZoneAt(rip.sp, position))
  }

  // The number of the entry read_map looks for in the double indirect block.
  function DoubleIndex(g: Geometry, k: nat): nat
    requires 0 < g.nr && g.ndz + g.nr <= k
  {
    (k - g.ndz - g.nr) / g.nr
  }

  // It is the one past the end exactly for one indirect block's worth of zones.
  lemma PastTheEnd(g: Geometry, k: nat)
    requires 0 < g.nr && g.ndz + g.nr <= k
    ensures DoubleIndex(g, k) < g.nr <==> k < g.Capacity()
    ensures DoubleIndex(g, k) == g.nr <==> g.Capacity() <= k < g.Capacity() + g.nr
  {
    var x, square := k - g.ndz - g.nr, g.Capacity() - g.ndz - g.nr;
    EntryPast(x, g.nr, square);
    hide Geometry.Capacity;
  }

  lemma EntryPast(x: nat, n: nat, square: nat)
    requires 0 < n && square == n * n
    ensures x / n < n <==> x < square
    ensures x / n == n <==> square <= x < square + n
  {
    var q := x / n;
    assert n * q <= x < n * q + n;
    Distribute(n, q);
    Distribute(n, n);
    if q < n { MulMono(n, q + 1, n); }
    if q > n { MulMono(n, n + 1, q); }
  }

  // The test of read_map lets an entry past the end through exactly where the
  // position is not readable.
  lemma ReadableExactly(g: Geometry, img: Image, k: nat)
    requires 0 < g.nr && |img.izone| == 4 * (g.ndz + 3)
    ensures !ReadableZone(g, img, k)
       <==> g.ndz + g.nr <= k && Target(g, img, Double) != NO_ZONE && g.nr <= DoubleIndex(g, k) && !(DoubleIndex(g, k) > g.nr)
  {
    hide Target;
    if g.ndz + g.nr <= k {
      PastTheEnd(g, k);
    } else {
      AllSingle(g);
    }
    hide Geometry.Capacity;
  }

  lemma AllSingle(g: Geometry)
    ensures g.ndz + g.nr <= g.Capacity()
  {
  }

  // With any geometry there is a file with a double indirect block, and it cannot be
  // asked for the positions of file zone k.
  lemma UnreadableExample(g: Geometry, k: nat)
    requires g.Sane() && g.first < g.limit && g.Capacity() <= k < g.Capacity() + g.nr
    ensures var img := WithInodeZone(g, NewFile(g, Zeros(g.BlockSize())), g.ndz + 1, g.first);
            && Mapped(g, img, {g.first}, {}) && !ReadableZone(g, img, k)
            && g.ndz + g.nr <= k && DoubleIndex(g, k) == g.nr
  {
    hide Mapped, Zeros, Word;
    var z: Zone, x := g.first, Zeros(g.BlockSize());
    var img := NewFile(g, x);
    SizeOfZeros(g.BlockSize());
    SizeOfZeros(4 * (g.ndz + 3));
    NewFileMapped(g, x);
    StaleDouble(g, img, {}, {}, z);
    assert {} + {z} == {z} && img.disk[z] == x;
    WordOfPut(img.izone, g.ndz + 1, z, g.ndz + 1);
    AllSingle(g);
    PastTheEnd(g, k);
  }

  lemma SizeOfZeros(n: nat)
    ensures |Zeros(n)| == n
  {
  }

  /** stray: the server went to the entry past the end of the double indirect
      block, and what it then does is anybody's guess. */
  method ReadMap(rip: Inode, position: nat, ghost others: set<Zone>) returns (b: nat, ghost stray: bool)
    requires rip.ValidMap(others)
    ensures stray <==> !Readable(rip, position)
    ensures Readable(rip, position) ==>
              var k := ZoneAt(rip.sp, position);
              b == if k < rip.sp.g.Capacity() then BlockIn(rip.sp, position, Lookup(rip.sp.g, rip.Img(), k)) else NO_BLOCK
  {
    hide Geometry.Capacity, Geometry.BlockSize, ReadableZone, Lookup, Div, BlockIn;
    var sp := rip.sp;
    BlockInZone(sp, position);
    var blockPos := Div(position, sp.g.BlockSize());
    var zone := Div(blockPos, sp.zoneBlocks);
    var boff := blockPos - zone * sp.zoneBlocks;
    var z;
    z, stray := MappedZone(rip, zone, others);
    b := if z == NO_ZONE then NO_BLOCK else z * sp.zoneBlocks + boff;
  }

  // The zone read_map finds for file zone k.
  method MappedZone(rip: Inode, k: nat, ghost others: set<Zone>) returns (z: Zone, ghost stray: bool)
    requires rip.ValidMap(others)
    ensures stray <==> !ReadableZone(rip.sp.g, rip.Img(), k)
    ensures ReadableZone(rip.sp.g, rip.Img(), k) ==>
              z == if k < rip.sp.g.Capacity() then Lookup(rip.sp.g, rip.Img(), k) else NO_ZONE
  {
    hide Target, Separated, Owns, Word, Geometry.Capacity, Geometry.BlockSize, Site;
    var sp := rip.sp;
    var g := sp.g;
    var dzones, nrIndirects := g.ndz, g.nr;
    ghost var img := rip.Img();
    InodeWords(g, img);
    AllSingle(g);
    if k < dzones {
      SiteOfDirect(g, k);
      return Word(rip.izone, k), false;
    }
    var excess := k - dzones;
    ghost var m := 0;
    if excess < nrIndirects {
      SiteOfSingle(g, k);
      z := Word(rip.izone, dzones);
    } else {
      z := Word(rip.izone, dzones + 1);
      SiteOfDouble(g, k);
      if z == NO_ZONE {
        if k < g.Capacity() { HoleBelowDouble(g, img, k); }
        return NO_ZONE, false;
      }
      excess := excess - nrIndirects;
      var index := excess / nrIndirects;
      PastTheEnd(g, k);
      if index > nrIndirects {
        return NO_ZONE, false;
      }
      if index == nrIndirects {
        var anything: Zone := *;
        return anything, true;
      }
      m := index + 1;
      DoubleWord(g, img, m);
      z := RdIndir(sp, z, index);
      excess := excess % nrIndirects;
    }
    TableWord(g, img, m, excess);
    if z == NO_ZONE { return NO_ZONE, false; }
    z := RdIndir(sp, z, excess);
    return z, false;
  }

  lemma SiteOfDirect(g: Geometry, k: nat)
    requires 0 < g.nr && k < g.ndz
    ensures k < g.Capacity() && Site(g, k) == Direct(k)
  {
  }

  lemma HoleBelowDouble(g: Geometry, img: Image, k: nat)
    requires Formatted(g, img) && g.ndz + g.nr <= k < g.Capacity() && Target(g, img, Double) == NO_ZONE
    ensures Lookup(g, img, k) == NO_ZONE
  {
    SiteOfDouble(g, k);
  }
}
