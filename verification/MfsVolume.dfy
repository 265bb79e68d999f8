/** The volume an inode lives on: block contents, zone bitmap and buffers. */
module MfsVolume {
  import opened Arithmetic
  import opened Errno
  import opened ZoneWords
  import opened BlockMap
  import opened WriteMapSpec

  const NO_BLOCK: nat := 0

  datatype FileType = REGULAR | IMMEDIATE

  /** A mounted volume: the first block of every zone, the zone bitmap and the
      error code left by the allocator. */
  class Volume {
    const g: Geometry
    const zoneBlocks: nat   // blocks per zone, 1 << s_log_zone_size
    const maxSize: nat      // largest file size, s_max_size
    const readOnly: bool
    var disk: map<Zone, Bytes>
    var inUse: set<Zone>
    var errCode: int

    constructor (g: Geometry, zoneBlocks: nat, maxSize: nat, readOnly: bool)
      ensures this.g == g && this.zoneBlocks == zoneBlocks && inUse == {}
      ensures this.maxSize == maxSize && this.readOnly == readOnly
      ensures forall z: Zone | g.InRange(z) :: z in disk && |disk[z]| == g.BlockSize()
    {
      this.g, this.zoneBlocks, this.maxSize, this.readOnly := g, zoneBlocks, maxSize, readOnly;
      disk := map z: Zone | 0 <= z < 0x1_0000_0000 && g.InRange(z) :: Zeros(g.BlockSize());
      inUse, errCode := {}, OK;
    }
  }

  class Inode {
    const sp: Volume
    var mode: FileType
    var size: nat
    var izone: Bytes    // the bytes of i_zone; of a regular file, ndz + 3 zone numbers
    var zsearch: Zone

    constructor (sp: Volume, mode: FileType)
      ensures this.sp == sp && this.mode == mode && size == 0 && zsearch == NO_ZONE
      ensures izone == Zeros(4 * (sp.g.ndz + 3))
    {
      this.sp, this.mode, size, zsearch := sp, mode, 0, NO_ZONE;
      izone := Zeros(4 * (sp.g.ndz + 3));
    }

    ghost function Img(): Image
      reads this, sp
    {
      Image(izone, sp.disk)
    }

    // The invariant of the zone tree; others are the zones in use elsewhere.
    ghost predicate ValidMap(others: set<Zone>)
      reads this, sp
    {
      0 < sp.zoneBlocks && Mapped(sp.g, Img(), sp.inUse, others)
    }
  }

  /** --- The allocator's interface --- */

  // Any free zone, preferably near the hint; fails only on a full volume.
  method AllocZone(sp: Volume, hint: Zone) returns (z: Zone)
    requires 0 < sp.g.first && sp.g.limit <= 0x1_0000_0000
    modifies sp`inUse, sp`errCode
    ensures z != NO_ZONE ==> sp.g.InRange(z) && z !in old(sp.inUse) && sp.inUse == old(sp.inUse) + {z}
    ensures z != NO_ZONE ==> sp.errCode == old(sp.errCode)
    ensures z == NO_ZONE ==> sp.inUse == old(sp.inUse) && sp.errCode != OK
    ensures z == NO_ZONE ==> forall y: Zone | sp.g.InRange(y) :: y in sp.inUse
  {
    if sp.g.InRange(hint) && hint !in sp.inUse {
      sp.inUse := sp.inUse + {hint};
      return hint;
    }
    var i := sp.g.first;
    while i < sp.g.limit
      invariant sp.inUse == old(sp.inUse)
      invariant forall y: Zone | sp.g.first <= y < i :: sp.g.InRange(y) ==> y in sp.inUse
    {
      if i !in sp.inUse {
        sp.inUse := sp.inUse + {i};
        return i;
      }
      i := i + 1;
    }
    sp.errCode := ENOSPC;
    return NO_ZONE;
  }

  // Freeing a zone that is not in use would be an error of the file system.
  method FreeZone(sp: Volume, z: Zone)
    requires z in sp.inUse
    modifies sp`inUse
    ensures sp.inUse == old(sp.inUse) - {z}
  {
    sp.inUse := sp.inUse - {z};
  }

  /** --- Buffers: a buffer written is the block written --- */

  // With noRead the buffer, and so the block, may hold anything.
  method GetBlock(sp: Volume, z: Zone, noRead: bool)
    requires z in sp.disk && |sp.disk[z]| == sp.g.BlockSize()
    modifies sp`disk
    ensures !noRead ==> sp.disk == old(sp.disk)
    ensures z in sp.disk && |sp.disk[z]| == sp.g.BlockSize()
    ensures sp.disk == old(sp.disk)[z := sp.disk[z]]
  {
    if noRead {
      var stale: Bytes := *;
      if |stale| == sp.g.BlockSize() {
        sp.disk := sp.disk[z := stale];
      }
    }
  }

  method ZeroBlock(sp: Volume, z: Zone)
    requires z in sp.disk
    modifies sp`disk
    ensures sp.disk == old(sp.disk)[z := Zeros(sp.g.BlockSize())]
  {
    sp.disk := sp.disk[z := Zeros(sp.g.BlockSize())];
  }

  // The file zone that holds a byte position.
  function ZoneAt(sp: Volume, position: nat): nat
    requires 0 < sp.g.nr && 0 < sp.zoneBlocks
  {
    Div(Div(position, sp.g.BlockSize()), sp.zoneBlocks)
  }
}
