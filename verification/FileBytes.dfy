/** The bytes of a regular file as its zone tree gives them, and how the steps
    of write_map, new_block and rw_chunk act on them. */
module FileBytes {
  import opened Arithmetic
  import opened ZoneWords
  import opened BlockMap
  import opened WriteMapSpec

  function BlockNo(g: Geometry, q: nat): nat
    requires 0 < g.nr
  {
    Div(q, g.BlockSize())
  }

  function BlockOff(g: Geometry, q: nat): nat
    requires 0 < g.nr
  {
    q % g.BlockSize()
  }

  // Byte q of the file: zero in a hole and past what the zone tree can map.
  function ByteAt(g: Geometry, img: Image, q: nat): Byte
    requires Formatted(g, img)
  {
    if BlockNo(g, q) < g.Capacity() then
      var z := Lookup(g, img, BlockNo(g, q));
      if z in img.disk && BlockOff(g, q) < |img.disk[z]| && z != NO_ZONE then img.disk[z][BlockOff(g, q)] else 0
    else 0
  }

  ghost predicate SameBytes(g: Geometry, img: Image, img': Image)
    requires Formatted(g, img) && Formatted(g, img')
  {
    forall q: nat :: ByteAt(g, img', q) == ByteAt(g, img, q)
  }

  // A chunk lies in one block.
  lemma ChunkInBlock(g: Geometry, p: nat, chunk: nat, q: nat)
    requires 0 < g.nr && BlockOff(g, p) + chunk <= g.BlockSize() && 0 < chunk
    ensures p <= q < p + chunk <==>
              BlockNo(g, q) == BlockNo(g, p) && BlockOff(g, p) <= BlockOff(g, q) < BlockOff(g, p) + chunk
    ensures BlockNo(g, q) == BlockNo(g, p) ==> q - p == BlockOff(g, q) - BlockOff(g, p)
  {
    var bs := g.BlockSize();
    var x, y := BlockNo(g, p), BlockOff(g, p);
    assert p == bs * x + y;
    if p <= q < p + chunk {
      DivModOf(x, bs, y + (q - p));
      assert q == bs * x + (y + (q - p));
    }
    assert q == bs * BlockNo(g, q) + BlockOff(g, q);
  }

  lemma BelowCapacity(g: Geometry, q: nat)
    requires 0 < g.nr && q < g.MaxBytes()
    ensures BlockNo(g, q) < g.Capacity()
  {
    DivBound(q, g.BlockSize(), g.Capacity());
  }

  // Data zones are in use, are not indirect blocks and belong to one file zone.
  lemma DataZone(g: Geometry, img: Image, inUse: set<Zone>, others: set<Zone>, k: nat)
    requires Mapped(g, img, inUse, others) && k < g.Capacity() && Lookup(g, img, k) != NO_ZONE
    ensures Lookup(g, img, k) in inUse && !IsMeta(g, img, Lookup(g, img, k))
    ensures g.InRange(Lookup(g, img, k)) && Lookup(g, img, k) in img.disk
    ensures forall j: nat | j < g.Capacity() && j != k :: Lookup(g, img, j) != Lookup(g, img, k)
  {
    hide Target;
    assert Referenced(g, img, Lookup(g, img, k));
    forall j: nat | j < g.Capacity() && j != k ensures Lookup(g, img, j) != Lookup(g, img, k) {
      SiteInjective(g, j, k);
    }
  }

  // new_block shows in no byte: a fresh block is zero where there was a hole.
  lemma AcquiredBytes(g: Geometry, img: Image, inUse: set<Zone>, others: set<Zone>, k: nat,
                      b: nat, img': Image, inUse': set<Zone>)
    requires Mapped(g, img, inUse, others) && k < g.Capacity() && Lookup(g, img, k) == NO_ZONE
    requires Acquired(g, img, inUse, others, k, b, img', inUse')
    ensures Formatted(g, img') && SameBytes(g, img, img')
  {
    forall q: nat ensures ByteAt(g, img', q) == ByteAt(g, img, q) {
      var j := BlockNo(g, q);
      if j < g.Capacity() && Lookup(g, img, j) != NO_ZONE {
        DataZone(g, img, inUse, others, j);
      }
      hide Lookup, IsMeta;
    }
  }

  // A data block rewritten shows in the bytes of its own file zone only.
  lemma WrittenBytes(g: Geometry, img: Image, inUse: set<Zone>, others: set<Zone>, k: nat, x: Bytes)
    requires Mapped(g, img, inUse, others) && k < g.Capacity() && Lookup(g, img, k) != NO_ZONE
    requires |x| == g.BlockSize()
    ensures var img' := WithBlock(img, Lookup(g, img, k), x);
            && Mapped(g, img', inUse, others)
            && LookupSame(g, img, img')
            && forall q: nat :: ByteAt(g, img', q) == if BlockNo(g, q) == k then x[BlockOff(g, q)] else ByteAt(g, img, q)
  {
    var img' := WithBlock(img, Lookup(g, img, k), x);
    DataWritten(g, img, inUse, others, k, x);
    DataZone(g, img, inUse, others, k);
    hide Lookup, Mapped;
  }

  lemma MappedBytes(g: Geometry, img: Image, inUse: set<Zone>, others: set<Zone>, k: nat)
    requires Mapped(g, img, inUse, others) && k < g.Capacity() && Lookup(g, img, k) != NO_ZONE
    ensures Lookup(g, img, k) in img.disk && |img.disk[Lookup(g, img, k)]| == g.BlockSize()
    ensures forall q: nat | BlockNo(g, q) == k :: ByteAt(g, img, q) == img.disk[Lookup(g, img, k)][BlockOff(g, q)]
  {
    DataZone(g, img, inUse, others, k);
    hide Lookup, Mapped;
  }
}
