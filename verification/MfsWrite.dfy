/** Writing zones into an inode: write_map, new_block and what they call. */
module MfsWrite {
  import opened Arithmetic
  import opened Errno
  import opened ZoneWords
  import opened BlockMap
  import opened WriteMapSpec
  import opened MfsVolume
  import opened MfsReadMap

  method WrIndir(sp: Volume, t: Zone, index: nat, z: Zone)
    requires t in sp.disk && |sp.disk[t]| == sp.g.BlockSize() && index < sp.g.nr
    modifies sp`disk
    ensures sp.disk == old(sp.disk)[t := PutWord(old(sp.disk)[t], index, z)]
  {
    sp.disk := sp.disk[t := PutWord(sp.disk[t], index, z)];
  }

  // The scan stops at the first entry in use.
  method EmptyIndir(sp: Volume, t: Zone) returns (empty: bool)
    requires t in sp.disk && |sp.disk[t]| == sp.g.BlockSize()
    ensures empty <==> forall e: nat | e < sp.g.nr :: Word(sp.disk[t], e) == NO_ZONE
  {
    var i := 0;
    while i < sp.g.nr
      invariant 0 <= i <= sp.g.nr
      invariant forall e: nat | e < i :: Word(sp.disk[t], e) == NO_ZONE
    {
      if Word(sp.disk[t], i) != NO_ZONE {
        return false;
      }
      i := i + 1;
    }
    return true;
  }

  method SetInodeZone(rip: Inode, i: nat, z: Zone)
    requires 4 * i + 4 <= |rip.izone|
    modifies rip`izone
    ensures rip.izone == PutWord(old(rip.izone), i, z)
  {
    rip.izone := PutWord(rip.izone, i, z);
  }

  // What a call past the last file zone answers: the allocator's code if it was asked
  // for a double indirect block and had no zone, EFBIG otherwise.
  ghost function RefusalCode(sp: Volume, img: Image, inUse: set<Zone>, free: bool): int
    requires |img.izone| == 4 * (sp.g.ndz + 3)
    reads sp
  {
    if !free && Target(sp.g, img, Double) == NO_ZONE && Full(sp.g, inUse) then sp.errCode else EFBIG
  }

  // The first half of write_map for a zone outside the inode: z1, the single
  // indirect block that has the entry (or NO_ZONE), with the double indirect
  // block z created on the way if a zone is to be written.
  method LocateTable(rip: Inode, zone: nat, newZone: Zone, free: bool, ghost others: set<Zone>)
    returns (r: int, single: bool, z2: Zone, z: Zone, indEx: nat, ex: nat, z1: Zone)
    requires rip.ValidMap(others) && rip.sp.g.ndz <= zone
    modifies rip`izone, rip.sp
    ensures r == OK ==>
              && zone < rip.sp.g.Capacity()
              && ex < rip.sp.g.nr && (if single then indEx == 0 else indEx < rip.sp.g.nr)
              && Site(rip.sp.g, zone) == Slot(if single then 0 else indEx + 1, ex)
              && Grown(rip.sp.g, old(rip.Img()), old(rip.sp.inUse), others, rip.Img(), rip.sp.inUse)
              && Formatted(rip.sp.g, rip.Img())
              && z1 == Target(rip.sp.g, rip.Img(), Table(if single then 0 else indEx + 1))
              && (!single ==> z == Target(rip.sp.g, rip.Img(), Double) && z2 == Target(rip.sp.g, old(rip.Img()), Double))
              && (!single && !free ==> z != NO_ZONE)
              && (free ==> rip.Img() == old(rip.Img()) && rip.sp.inUse == old(rip.sp.inUse))
    ensures r != OK && zone < rip.sp.g.Capacity() ==>
              && r == rip.sp.errCode
              && Wrote(rip.sp.g, old(rip.Img()), old(rip.sp.inUse), others, zone, newZone, free, false, rip.Img(), rip.sp.inUse)
    ensures zone >= rip.sp.g.Capacity() ==>
              && r != OK && r == RefusalCode(rip.sp, old(rip.Img()), old(rip.sp.inUse), free)
              && Refused(rip.sp.g, old(rip.Img()), old(rip.sp.inUse), free, rip.Img(), rip.sp.inUse)
  {
    hide Target, Wrote, Separated, Owns, Grown, Word, PutWord, Zeros, Site;
    var sp := rip.sp;
    var g := sp.g;
    var zones, nrIndirects := g.ndz, g.nr;
    ghost var img, inUse := rip.Img(), sp.inUse;
    InodeWords(g, img);
    var excess := zone - zones;
    r, z2, z, indEx := OK, NO_ZONE, NO_ZONE, 0;
    if excess < nrIndirects {
      z1 := Word(rip.izone, zones);
      single := true;
      SiteOfSingle(g, zone);
      GrownRefl(g, img, inUse, others);
      return OK, single, z2, z, indEx, excess, z1;
    }
    single := false;
    var newDouble := false;
    z2 := Word(rip.izone, zones + 1);
    z := z2;
    if z == NO_ZONE && !free {
      z := AllocZone(sp, Word(rip.izone, 0));
      if z == NO_ZONE {
        if zone < g.Capacity() { DoubleRefused(g, img, inUse, others, zone, newZone); }
        return sp.errCode, single, z2, z, indEx, 0, NO_ZONE;
      }
      SetInodeZone(rip, zones + 1, z);
      newDouble := true;
    }
    excess := excess - nrIndirects;
    indEx := excess / nrIndirects;
    excess := excess % nrIndirects;
    SiteOfDouble(g, zone);
    if indEx >= nrIndirects {
      return EFBIG, single, z2, z, indEx, excess, NO_ZONE;
    }
    DoubleWord(g, img, indEx + 1);
    if z == NO_ZONE && free {
      z1 := NO_ZONE;
      GrownRefl(g, img, inUse, others);
    } else {
      GetBlock(sp, z, newDouble);
      if newDouble {
        ZeroBlock(sp, z);
        DoubleGrown(g, img, inUse, others, z);
        assert rip.Img() == WithBlock(WithInodeZone(g, img, zones + 1, z), z, Zeros(g.BlockSize()));
      } else {
        GrownRefl(g, img, inUse, others);
      }
      GrownDouble(g, img, inUse, others, rip.Img(), sp.inUse, indEx + 1);
      z1 := RdIndir(sp, z, indEx);
    }
    return OK, single, z2, z, indEx, excess, z1;
  }

  // The second half when the entry is to be written: the single indirect block
  // is created if need be. z is the double indirect block unless single.
  method WriteEntry(rip: Inode, zone: nat, newZone: Zone, single: bool, z: Zone, indEx: nat, ex: nat, z1in: Zone,
                    ghost img: Image, ghost inUse: set<Zone>, ghost others: set<Zone>) returns (r: int)
    requires Formatted(rip.sp.g, img) && rip.sp.g.ndz <= zone < rip.sp.g.Capacity()
    requires ex < rip.sp.g.nr && (if single then indEx == 0 else indEx < rip.sp.g.nr)
    requires Site(rip.sp.g, zone) == Slot(if single then 0 else indEx + 1, ex)
    requires Grown(rip.sp.g, img, inUse, others, rip.Img(), rip.sp.inUse) && Formatted(rip.sp.g, rip.Img())
    requires z1in == Target(rip.sp.g, rip.Img(), Table(if single then 0 else indEx + 1))
    requires !single ==> z == Target(rip.sp.g, rip.Img(), Double) && z != NO_ZONE
    requires newZone == NO_ZONE || newZone in others
    modifies rip`izone, rip.sp
    ensures Wrote(rip.sp.g, img, inUse, others, zone, newZone, false, r == OK, rip.Img(), rip.sp.inUse)
    ensures r != OK ==> r == rip.sp.errCode
  {
    hide Target, Wrote, Separated, Owns, Grown, Word, PutWord, Zeros, Site;
    var sp := rip.sp;
    var g := sp.g;
    ghost var m := if single then 0 else indEx + 1;
    ghost var img1, inUse1 := rip.Img(), sp.inUse;
    GrownMapped(g, img, inUse, others, img1, inUse1);
    var z1, newInd := z1in, false;
    if z1 == NO_ZONE {
      z1 := AllocZone(sp, Word(rip.izone, 0));
      if single {
        SetInodeZone(rip, g.ndz, z1);
      } else {
        GrownDouble(g, img, inUse, others, img1, inUse1, m);
        WrIndir(sp, z, indEx, z1);
      }
      newInd := true;
      if z1 == NO_ZONE {
        TableRefused(g, img, inUse, others, img1, inUse1, m, zone, newZone);
        assert rip.Img() == TableDetachedImage(g, img1, m);
        return sp.errCode;
      }
    } else {
      GrownTable(g, img, inUse, others, img1, inUse1, m, ex);
    }
    GetBlock(sp, z1, newInd);
    if newInd {
      ZeroBlock(sp, z1);
      TableGrown(g, img1, inUse1, others, m, z1);
      GrownTrans(g, img, inUse, others, img1, inUse1, TableAttachedImage(g, img1, m, z1), inUse1 + {z1});
      assert rip.Img() == TableAttachedImage(g, img1, m, z1);
    }
    GrownTable(g, img, inUse, others, rip.Img(), sp.inUse, m, ex);
    SlotSet(g, img, inUse, others, rip.Img(), sp.inUse, m, ex, zone, newZone);
    WrIndir(sp, z1, ex, newZone);
    return OK;
  }

  // The second half with WMAP_FREE: the entry is cleared, then the single and
  // the double indirect block if they are left without entries.
  method FreeEntry(rip: Inode, zone: nat, newZone: Zone, single: bool, z2: Zone, indEx: nat, ex: nat, z1in: Zone,
                   ghost others: set<Zone>)
    requires rip.ValidMap(others) && zone < rip.sp.g.Capacity()
    requires ex < rip.sp.g.nr && (if single then indEx == 0 else indEx < rip.sp.g.nr)
    requires Site(rip.sp.g, zone) == Slot(if single then 0 else indEx + 1, ex)
    requires z1in == Target(rip.sp.g, rip.Img(), Table(if single then 0 else indEx + 1))
    requires !single ==> z2 == Target(rip.sp.g, rip.Img(), Double)
    modifies rip`izone, rip.sp
    ensures Wrote(rip.sp.g, old(rip.Img()), old(rip.sp.inUse), others, zone, newZone, true, true, rip.Img(), rip.sp.inUse)
  {
    hide Target, Wrote, Separated, Owns, Shrunk, Word, PutWord, Zeros, Site, Updated;
    var sp := rip.sp;
    var g := sp.g;
    ghost var m := if single then 0 else indEx + 1;
    ghost var img, inUse := rip.Img(), sp.inUse;
    TableWord(g, img, m, ex);
    var z1 := z1in;
    ghost var img1, img2 := img, img;
    if z1 != NO_ZONE {
      GetBlock(sp, z1, false);
      var oldZone := RdIndir(sp, z1, ex);
      if oldZone != NO_ZONE {
        SlotFreed(g, img, inUse, others, m, ex, zone);
        FreeZone(sp, oldZone);
        WrIndir(sp, z1, ex, NO_ZONE);
      } else {
        NothingToFree(g, img, inUse, others, m, ex, zone);
      }
      img1, img2 := rip.Img(), rip.Img();
      ghost var inUse1 := sp.inUse;
      ShrunkMapped(g, img, inUse, others, zone, img1, inUse1);
      TableWords(g, img1, inUse1, others, m);
      var empty := EmptyIndir(sp, z1);
      if empty {
        TableFreed(g, img, inUse, others, m, ex, zone, img1, inUse1);
        FreeZone(sp, z1);
        z1 := NO_ZONE;
        if single {
          SetInodeZone(rip, g.ndz, z1);
        } else {
          WrIndir(sp, z2, indEx, z1);
        }
        img2 := TableDetachedImage(g, img1, m);
        assert rip.Img() == img2;
      }
    } else {
      NothingToFree(g, img, inUse, others, m, ex, zone);
    }
    ghost var inUse2 := sp.inUse;
    if z1 == NO_ZONE && !single && z2 != NO_ZONE {
      ShrunkMapped(g, img, inUse, others, zone, img2, inUse2);
      DoubleWords(g, img2, inUse2, others);
      var empty := EmptyIndir(sp, z2);
      if empty {
        DoubleFreed(g, img, inUse, others, zone, img2, inUse2);
        FreeZone(sp, z2);
        SetInodeZone(rip, g.ndz + 1, NO_ZONE);
      }
    }
    FreeSteps(g, img, inUse, others, m, ex, zone, newZone, img1, img2, rip.Img(), sp.inUse);
  }

  method WriteMap(rip: Inode, position: nat, newZone: Zone, free: bool, ghost others: set<Zone>) returns (r: int)
    requires rip.mode == REGULAR ==> rip.ValidMap(others)
    requires newZone == NO_ZONE || newZone in others
    modifies rip`izone, rip.sp
    ensures rip.mode == IMMEDIATE ==> r == OK && rip.Img() == old(rip.Img()) && rip.sp.inUse == old(rip.sp.inUse)
    ensures rip.mode == REGULAR && ZoneAt(rip.sp, position) < rip.sp.g.Capacity() ==>
              Wrote(rip.sp.g, old(rip.Img()), old(rip.sp.inUse), others, ZoneAt(rip.sp, position),
                    newZone, free, r == OK, rip.Img(), rip.sp.inUse)
    ensures rip.mode == REGULAR && ZoneAt(rip.sp, position) < rip.sp.g.Capacity() && r != OK ==> r == rip.sp.errCode
    ensures rip.mode == REGULAR && ZoneAt(rip.sp, position) >= rip.sp.g.Capacity() ==>
              && r != OK && r == RefusalCode(rip.sp, old(rip.Img()), old(rip.sp.inUse), free)
              && Refused(rip.sp.g, old(rip.Img()), old(rip.sp.inUse), free, rip.Img(), rip.sp.inUse)
  {
    hide Target, Wrote, Separated, Owns, Grown, Word, PutWord, Zeros, Site;
    if rip.mode == IMMEDIATE {
      return NO_BLOCK;
    }
    var sp := rip.sp;
    var g := sp.g;
    var zone := position / g.BlockSize() / sp.zoneBlocks;
    ghost var img, inUse := rip.Img(), sp.inUse;
    InodeWords(g, img);

    if zone < g.ndz {
      if Word(rip.izone, zone) != NO_ZONE && free {
        DirectFreed(g, img, inUse, others, zone, newZone);
        FreeZone(sp, Word(rip.izone, zone));
        SetInodeZone(rip, zone, NO_ZONE);
      } else {
        DirectSet(g, img, inUse, others, zone, newZone, free);
        SetInodeZone(rip, zone, newZone);
      }
      return OK;
    }

    var single, z2, z, indEx, ex, z1;
    r, single, z2, z, indEx, ex, z1 := LocateTable(rip, zone, newZone, free, others);
    if r != OK {
      return r;
    }
    if free {
      FreeEntry(rip, zone, newZone, single, z2, indEx, ex, z1, others);
    } else {
      r := WriteEntry(rip, zone, newZone, single, z, indEx, ex, z1, img, inUse, others);
    }
  }

  // Blocks are cleared a zone at a time only when a zone is one block: clear_zone
  // asserts it and does nothing.
  method ClearZone(rip: Inode)
    requires rip.sp.zoneBlocks == 1
  {
  }

  // A new zone for file zone k, hooked in; its block holds whatever it held.
  method NewZone(rip: Inode, position: nat, ghost others: set<Zone>) returns (z: Zone)
    requires rip.mode == REGULAR && rip.ValidMap(others) && Formatted(rip.sp.g, rip.Img()) && rip.sp.zoneBlocks == 1
    requires ZoneAt(rip.sp, position) < rip.sp.g.Capacity()
    requires Lookup(rip.sp.g, rip.Img(), ZoneAt(rip.sp, position)) == NO_ZONE
    modifies rip`izone, rip`zsearch, rip.sp
    ensures z == NO_ZONE ==>
              && rip.sp.errCode != OK
              && Acquired(rip.sp.g, old(rip.Img()), old(rip.sp.inUse), others, ZoneAt(rip.sp, position),
                          NO_BLOCK, rip.Img(), rip.sp.inUse)
    ensures z != NO_ZONE ==>
              && Hooked(rip.sp.g, old(rip.Img()), old(rip.sp.inUse), others, ZoneAt(rip.sp, position),
                        z, rip.Img(), rip.sp.inUse)
              && z in rip.sp.disk && |rip.sp.disk[z]| == rip.sp.g.BlockSize()
  {
    var sp := rip.sp;
    var g := sp.g;
    ghost var img, inUse, k := rip.Img(), sp.inUse, ZoneAt(sp, position);
    hide Target, Mapped, Hooked, Acquired, Wrote, Lookup, ZoneAt, Geometry.Capacity, Refused;
    MappedFacts(g, img, inUse, others);
    z := rip.zsearch;
    if z == NO_ZONE {
      z := Word(rip.izone, 0);
      if z == NO_ZONE {
        z := if g.first < g.limit then g.first else NO_ZONE;
      }
    }
    z := AllocZone(sp, z);
    if z == NO_ZONE {
      NoZoneLeft(g, img, inUse, others, k);
      return NO_ZONE;
    }
    rip.zsearch := z;
    TakeZone(g, img, inUse, others, z);
    var r := WriteMap(rip, position, z, false, others + {z});
    WroteUsable(g, img, inUse, others, k, z, r == OK, rip.Img(), sp.inUse);
    if r != OK {
      FreeZone(sp, z);
      sp.errCode := r;
      return NO_ZONE;
    }
    if position != rip.size {
      ClearZone(rip);
    }
  }

  method NewBlock(rip: Inode, position: nat, ghost others: set<Zone>) returns (b: nat)
    requires rip.mode == REGULAR && rip.ValidMap(others) && rip.sp.zoneBlocks == 1
    requires ZoneAt(rip.sp, position) < rip.sp.g.Capacity()
    modifies rip`izone, rip`zsearch, rip.sp
    ensures b == NO_BLOCK || b < 0x1_0000_0000
    ensures b == NO_BLOCK ==> rip.sp.errCode != OK
    ensures Acquired(rip.sp.g, old(rip.Img()), old(rip.sp.inUse), others, ZoneAt(rip.sp, position),
                     b, rip.Img(), rip.sp.inUse)
  {
    var sp := rip.sp;
    var g := sp.g;
    ghost var img, inUse, k := rip.Img(), sp.inUse, ZoneAt(sp, position);
    MappedFacts(g, img, inUse, others);
    ghost var stray;
    b, stray := ReadMap(rip, position, others);
    assert b == Lookup(g, img, k);
    hide Target, Mapped, Hooked, Acquired, Wrote, Lookup, ZoneAt, Zeros, Geometry.Capacity;
    if b == NO_BLOCK {
      var z := NewZone(rip, position, others);
      if z == NO_ZONE {
        return NO_BLOCK;
      }
      b := z;
    } else {
      MappedUsable(g, img, inUse, others, k);
    }
    ghost var img1 := rip.Img();
    GetBlock(sp, b, true);
    ZeroBlock(sp, b);
    assert rip.Img() == WithBlock(img1, b, Zeros(g.BlockSize()));
    Zeroed(g, img, inUse, others, k, b, img1, sp.inUse);
  }

  lemma PositionOf(g: Geometry, zb: nat, k: nat)
    requires 0 < g.nr && 0 < zb
    ensures k * zb * g.BlockSize() / g.BlockSize() / zb == k
  {
    var bs := g.BlockSize();
    DivModOf(k * zb, bs, 0);
    assert k * zb * bs == bs * (k * zb);
    DivModOf(k, zb, 0);
    assert k * zb == zb * k;
  }

  /** A whole run: freeing every file zone, as truncating a file does. The inode
      is left without any zone number and every zone it owned has been freed;
      each once, because FreeZone takes only zones in use. */
  method FreeAllZones(rip: Inode, ghost others: set<Zone>)
    requires rip.mode == REGULAR && rip.ValidMap(others)
    modifies rip`izone, rip.sp
    ensures rip.ValidMap(others) && rip.sp.inUse == others
    ensures forall i: nat | i < rip.sp.g.ndz + 2 :: Word(rip.izone, i) == NO_ZONE
  {
    hide Target, Separated, Owns, Wrote, Pruned, Mapped;
    var sp := rip.sp;
    var g := sp.g;
    var k := 0;
    Formed(g, rip.Img(), sp.inUse, others);
    while k < g.Capacity()
      invariant 0 <= k <= g.Capacity() && 0 < sp.zoneBlocks
      invariant Mapped(g, rip.Img(), sp.inUse, others) && Formatted(g, rip.Img())
      invariant FreedUpTo(g, rip.Img(), k)
    {
      ghost var img, inUse := rip.Img(), sp.inUse;
      PositionOf(g, sp.zoneBlocks, k);
      var r := WriteMap(rip, k * sp.zoneBlocks * g.BlockSize(), NO_ZONE, true, others);
      FreedNext(g, img, inUse, others, k, r == OK, rip.Img(), sp.inUse);
      k := k + 1;
    }
    AllFreed(g, rip.Img(), sp.inUse, others);
  }
}
