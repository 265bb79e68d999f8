/** The zone tree of one inode, as a value: the i_zone area together with the
    contents of the disk zones. Every place that can hold a zone number is a
    Ref; all changes made by write_map change one Ref each. */
module BlockMap {
  import opened Arithmetic
  import opened ZoneWords

  // nr: entries per indirect block, so a block has 4 * nr bytes; ndz: direct
  // zones of an inode; zones usable for data are numbered first .. limit - 1.
  datatype Geometry = Geometry(ndz: nat, nr: nat, first: nat, limit: nat) {
    ghost predicate Sane() {
      0 < nr && 0 < first && limit <= 0x1_0000_0000
    }

    function BlockSize(): nat { 4 * nr }

    // The file zones that direct, single and double indirect blocks can map.
    function Capacity(): nat { ndz + nr + nr * nr }

    // The largest position past a byte the zone tree can map.
    function MaxBytes(): nat { BlockSize() * Capacity() }

    predicate InRange(z: Zone) { first <= z < limit }
  }

  datatype Image = Image(izone: Bytes, disk: map<Zone, Bytes>)

  /** Table(0) is the single indirect block; Table(m) for m > 0 is the single
      indirect block named by entry m - 1 of the double indirect block. */
  datatype Ref = Direct(i: nat) | Double | Table(m: nat) | Slot(m: nat, e: nat)

  ghost predicate Formatted(g: Geometry, img: Image) {
    && g.Sane()
    && |img.izone| == 4 * (g.ndz + 3)
    && forall z: Zone | g.InRange(z) :: z in img.disk && |img.disk[z]| == g.BlockSize()
  }

  predicate Exists(g: Geometry, r: Ref) {
    match r
    case Direct(i) => i < g.ndz
    case Double => true
    case Table(m) => m <= g.nr
    case Slot(m, e) => m <= g.nr && e < g.nr
  }

  // Entry e of the indirect block in zone z; an absent block has no entries.
  function Entry(img: Image, z: Zone, e: nat): Zone {
    if z != NO_ZONE && z in img.disk && 4 * e + 4 <= |img.disk[z]| then Word(img.disk[z], e) else NO_ZONE
  }

  function TableZone(g: Geometry, img: Image, m: nat): Zone
    requires |img.izone| == 4 * (g.ndz + 3)
  {
    if m == 0 then Word(img.izone, g.ndz) else Entry(img, Word(img.izone, g.ndz + 1), m - 1)
  }

  // The zone number held at r.
  function Target(g: Geometry, img: Image, r: Ref): Zone
    requires |img.izone| == 4 * (g.ndz + 3) && Exists(g, r)
  {
    match r
    case Direct(i) => Word(img.izone, i)
    case Double => Word(img.izone, g.ndz + 1)
    case Table(m) => TableZone(g, img, m)
    case Slot(m, e) => Entry(img, TableZone(g, img, m), e)
  }

  // Where the disk zone of file zone k is recorded.
  function Site(g: Geometry, k: nat): (r: Ref)
    requires 0 < g.nr && k < g.Capacity()
    ensures Exists(g, r) && !r.Double? && !r.Table?
  {
    if k < g.ndz then Direct(k)
    else
      DivBound(k - g.ndz, g.nr, g.nr + 1);
      Slot((k - g.ndz) / g.nr, (k - g.ndz) % g.nr)
  }

  // The disk zone of file zone k, NO_ZONE in a hole.
  function Lookup(g: Geometry, img: Image, k: nat): Zone
    requires 0 < g.nr && k < g.Capacity() && |img.izone| == 4 * (g.ndz + 3)
  {
    Target(g, img, Site(g, k))
  }

  // Different file zones are recorded at different places, and every place
  // that records a data zone belongs to some file zone.
  lemma SiteInjective(g: Geometry, j: nat, k: nat)
    requires 0 < g.nr && j < g.Capacity() && k < g.Capacity()
    ensures Site(g, j) == Site(g, k) ==> j == k
  {
  }

  lemma SiteOnto(g: Geometry, r: Ref) returns (k: nat)
    requires 0 < g.nr && Exists(g, r) && !r.Double? && !r.Table?
    ensures k < g.Capacity() && Site(g, k) == r
  {
    match r {
      case Direct(i) => k := i;
      case Slot(m, e) =>
        k := g.ndz + g.nr * m + e;
        MulMono(g.nr, m, g.nr);
        assert (g.nr * m + e) / g.nr == m && (g.nr * m + e) % g.nr == e by { DivModOf(m, g.nr, e); }
    }
  }

  /** --- Ownership --- */

  // No zone is referenced twice, and every reference is a legal zone number.
  ghost predicate Separated(g: Geometry, img: Image)
    requires |img.izone| == 4 * (g.ndz + 3)
  {
    && (forall r | Exists(g, r) :: Target(g, img, r) == NO_ZONE || g.InRange(Target(g, img, r)))
    && (forall q, r | Exists(g, q) && Exists(g, r) && q != r && Target(g, img, q) != NO_ZONE ::
          Target(g, img, q) != Target(g, img, r))
  }

  ghost predicate Referenced(g: Geometry, img: Image, z: Zone)
    requires |img.izone| == 4 * (g.ndz + 3)
  {
    z != NO_ZONE && exists r | Exists(g, r) :: Target(g, img, r) == z
  }

  // The allocated zones are the ones this inode references plus others, which
  // belong to someone else; nothing is both.
  ghost predicate Owns(g: Geometry, img: Image, inUse: set<Zone>, others: set<Zone>)
    requires |img.izone| == 4 * (g.ndz + 3)
  {
    && (forall z :: z in inUse <==> z in others || Referenced(g, img, z))
    && (forall z | z in others :: !Referenced(g, img, z) && g.InRange(z))
  }

  // img' differs from img in the one reference r, which now holds z.
  ghost predicate Updated(g: Geometry, img: Image, img': Image, r: Ref, z: Zone)
    requires |img.izone| == |img'.izone| == 4 * (g.ndz + 3)
  {
    forall q | Exists(g, q) :: Target(g, img', q) == if q == r then z else Target(g, img, q)
  }

  function Without(s: set<Zone>, z: Zone): set<Zone> {
    s - {z}
  }

  function With(s: set<Zone>, z: Zone): set<Zone> {
    if z == NO_ZONE then s else s + {z}
  }

  // One reference changed: the zone it held goes to the caller, the zone it
  // now holds must have been the caller's, and ownership stays exact.
  lemma OwnsAfterUpdate(g: Geometry, img: Image, img': Image, r: Ref, z: Zone,
                        inUse: set<Zone>, others: set<Zone>)
    requires Formatted(g, img) && Formatted(g, img') && Exists(g, r)
    requires Separated(g, img) && Owns(g, img, inUse, others)
    requires Updated(g, img, img', r, z)
    requires z == NO_ZONE || z in others
    ensures Separated(g, img')
    ensures Owns(g, img', inUse, With(Without(others, z), Target(g, img, r)))
  {
    hide Target;
    var held := Target(g, img, r);
    var others' := With(Without(others, z), held);
    forall q, p | Exists(g, q) && Exists(g, p) && q != p && Target(g, img', q) != NO_ZONE
      ensures Target(g, img', q) != Target(g, img', p)
    {
      if q == r || p == r {
        assert z in others ==> !Referenced(g, img, z);
      }
    }
    forall y: Zone
      ensures y in inUse <==> y in others' || Referenced(g, img', y)
      ensures y in others' ==> !Referenced(g, img', y) && g.InRange(y)
    {
      if y != NO_ZONE {
        if Referenced(g, img, y) {
          var q :| Exists(g, q) && Target(g, img, q) == y;
          if q != r { assert Target(g, img', q) == y; }
        }
        if y == z { assert Target(g, img', r) == y; }
        if Referenced(g, img', y) {
          var q :| Exists(g, q) && Target(g, img', q) == y;
        }
      }
    }
  }

  /** --- The single-reference changes write_map is made of --- */

  // img with zone z's first block replaced.
  function WithBlock(img: Image, z: Zone, b: Bytes): Image {
    img.(disk := img.disk[z := b])
  }

  function WithInodeZone(g: Geometry, img: Image, i: nat, z: Zone): Image
    requires |img.izone| == 4 * (g.ndz + 3) && i < g.ndz + 3
  {
    img.(izone := PutWord(img.izone, i, z))
  }

  function WithEntry(g: Geometry, img: Image, t: Zone, e: nat, z: Zone): Image
    requires t in img.disk && |img.disk[t]| == g.BlockSize() && e < g.nr
  {
    WithBlock(img, t, PutWord(img.disk[t], e, z))
  }

  lemma EntryOfWithEntry(g: Geometry, img: Image, t: Zone, e: nat, z: Zone, u: Zone, j: nat)
    requires t in img.disk && |img.disk[t]| == g.BlockSize() && e < g.nr && j < g.nr
    ensures Entry(WithEntry(g, img, t, e, z), u, j)
         == if u == t && j == e && t != NO_ZONE then z else Entry(img, u, j)
  {
    WordOfPut(img.disk[t], e, z, j);
    hide PutWord, Word;
  }

  lemma InodeZoneUpdated(g: Geometry, img: Image, i: nat, z: Zone)
    requires Formatted(g, img) && i < g.ndz
    ensures Formatted(g, WithInodeZone(g, img, i, z))
    ensures Updated(g, img, WithInodeZone(g, img, i, z), Direct(i), z)
  {
    forall q | Exists(g, q)
      ensures Target(g, WithInodeZone(g, img, i, z), q) == if q == Direct(i) then z else Target(g, img, q)
    {
      WordsOfPut(g, img.izone, i, z);
      hide PutWord, Word;
    }
  }

  lemma WordsOfPut(g: Geometry, b: Bytes, i: nat, z: Zone)
    requires |b| == 4 * (g.ndz + 3) && i < g.ndz + 3
    ensures forall j: nat | j < g.ndz + 3 :: Word(PutWord(b, i, z), j) == if j == i then z else Word(b, j)
  {
    forall j: nat | j < g.ndz + 3
      ensures Word(PutWord(b, i, z), j) == if j == i then z else Word(b, j)
    {
      WordOfPut(b, i, z, j);
    }
  }

  // A new, zeroed double indirect block.
  lemma DoubleAttached(g: Geometry, img: Image, z: Zone)
    requires Formatted(g, img) && Separated(g, img)
    requires Target(g, img, Double) == NO_ZONE && g.InRange(z) && !Referenced(g, img, z)
    ensures var img' := WithBlock(WithInodeZone(g, img, g.ndz + 1, z), z, Zeros(g.BlockSize()));
            Formatted(g, img') && Updated(g, img, img', Double, z)
  {
    var img' := WithBlock(WithInodeZone(g, img, g.ndz + 1, z), z, Zeros(g.BlockSize()));
    WordsOfPut(g, img.izone, g.ndz + 1, z);
    forall e: nat | e < g.nr ensures Entry(img', z, e) == NO_ZONE { WordOfZeros(g.BlockSize(), e); }
    hide PutWord, Word, Zeros;
    forall q | Exists(g, q)
      ensures Target(g, img', q) == if q == Double then z else Target(g, img, q)
    {
      assert Target(g, img, Table(0)) != z;
    }
  }

  // A new, zeroed indirect block where there was none.
  function TableAttachedImage(g: Geometry, img: Image, m: nat, z: Zone): Image
    requires Formatted(g, img) && m <= g.nr && (m == 0 || g.InRange(Target(g, img, Double)))
  {
    var img1 := if m == 0 then WithInodeZone(g, img, g.ndz, z)
                else WithEntry(g, img, Target(g, img, Double), m - 1, z);
    WithBlock(img1, z, Zeros(g.BlockSize()))
  }

  lemma TableAttached(g: Geometry, img: Image, m: nat, z: Zone)
    requires Formatted(g, img) && Separated(g, img) && m <= g.nr
    requires m == 0 || Target(g, img, Double) != NO_ZONE
    requires Target(g, img, Table(m)) == NO_ZONE && g.InRange(z) && !Referenced(g, img, z)
    ensures var img' := TableAttachedImage(g, img, m, z);
            Formatted(g, img') && Updated(g, img, img', Table(m), z)
  {
    var img' := TableAttachedImage(g, img, m, z);
    var d := Target(g, img, Double);
    forall e: nat | e < g.nr ensures Entry(img', z, e) == NO_ZONE { WordOfZeros(g.BlockSize(), e); }
    if m == 0 {
      WordsOfPut(g, img.izone, g.ndz, z);
    } else {
      forall u, j: nat | j < g.nr && u != z
        ensures Entry(img', u, j) == if u == d && j == m - 1 then z else Entry(img, u, j)
      {
        EntryOfWithEntry(g, img, d, m - 1, z, u, j);
      }
    }
    hide PutWord, Word, Zeros;
    assert d != z;
    forall n: nat | n <= g.nr
      ensures TableZone(g, img', n) == if n == m then z else TableZone(g, img, n)
    {
      assert Target(g, img, Table(n)) != z;
    }
    forall q | Exists(g, q)
      ensures Target(g, img', q) == if q == Table(m) then z else Target(g, img, q)
    {
      if q.Slot? {
        assert Target(g, img, Table(q.m)) != z;
        assert d != NO_ZONE ==> Target(g, img, Table(q.m)) != d;
        hide TableAttachedImage;
      }
    }
  }

  // One entry of an existing indirect block.
  lemma SlotUpdated(g: Geometry, img: Image, m: nat, e: nat, z: Zone)
    requires Formatted(g, img) && Separated(g, img) && m <= g.nr && e < g.nr
    requires Target(g, img, Table(m)) != NO_ZONE
    ensures var img' := WithEntry(g, img, Target(g, img, Table(m)), e, z);
            Formatted(g, img') && Updated(g, img, img', Slot(m, e), z)
  {
    var t := Target(g, img, Table(m));
    var img' := WithEntry(g, img, t, e, z);
    forall u, j: nat | j < g.nr
      ensures Entry(img', u, j) == if u == t && j == e then z else Entry(img, u, j)
    {
      EntryOfWithEntry(g, img, t, e, z, u, j);
    }
    assert Target(g, img, Double) != t;
    hide PutWord, Word;
    forall n: nat | n <= g.nr
      ensures TableZone(g, img', n) == TableZone(g, img, n) && (n != m ==> TableZone(g, img, n) != t)
    {
      assert n != m ==> Target(g, img, Table(n)) != t;
    }
  }

  // An indirect block without entries is unhooked.
  function TableDetachedImage(g: Geometry, img: Image, m: nat): Image
    requires Formatted(g, img) && m <= g.nr && (m == 0 || g.InRange(Target(g, img, Double)))
  {
    if m == 0 then WithInodeZone(g, img, g.ndz, NO_ZONE)
    else WithEntry(g, img, Target(g, img, Double), m - 1, NO_ZONE)
  }

  lemma TableDetached(g: Geometry, img: Image, m: nat)
    requires Formatted(g, img) && Separated(g, img) && m <= g.nr
    requires m == 0 || Target(g, img, Double) != NO_ZONE
    requires forall e: nat | e < g.nr :: Target(g, img, Slot(m, e)) == NO_ZONE
    ensures var img' := TableDetachedImage(g, img, m);
            Formatted(g, img') && Updated(g, img, img', Table(m), NO_ZONE)
  {
    var img' := TableDetachedImage(g, img, m);
    var d := Target(g, img, Double);
    if m == 0 {
      WordsOfPut(g, img.izone, g.ndz, NO_ZONE);
    } else {
      forall u, j: nat | j < g.nr
        ensures Entry(img', u, j) == if u == d && j == m - 1 then NO_ZONE else Entry(img, u, j)
      {
        EntryOfWithEntry(g, img, d, m - 1, NO_ZONE, u, j);
      }
    }
    hide PutWord, Word;
    forall n: nat | n <= g.nr
      ensures TableZone(g, img', n) == if n == m then NO_ZONE else TableZone(g, img, n)
    {
    }
    forall q | Exists(g, q)
      ensures Target(g, img', q) == if q == Table(m) then NO_ZONE else Target(g, img, q)
    {
      if q.Slot? {
        if q.m == m { assert Target(g, img, Slot(m, q.e)) == NO_ZONE; }
        assert d != NO_ZONE ==> Target(g, img, Table(q.m)) != d;
        hide TableDetachedImage;
      }
    }
  }

  lemma DoubleDetached(g: Geometry, img: Image)
    requires Formatted(g, img)
    requires forall m: nat | 0 < m <= g.nr :: Target(g, img, Table(m)) == NO_ZONE
    ensures var img' := WithInodeZone(g, img, g.ndz + 1, NO_ZONE);
            Formatted(g, img') && Updated(g, img, img', Double, NO_ZONE)
  {
    var img' := WithInodeZone(g, img, g.ndz + 1, NO_ZONE);
    WordsOfPut(g, img.izone, g.ndz + 1, NO_ZONE);
    hide PutWord, Word;
    forall q | Exists(g, q)
      ensures Target(g, img', q) == if q == Double then NO_ZONE else Target(g, img, q)
    {
      if q.Slot? && q.m > 0 { assert Target(g, img, Table(q.m)) == NO_ZONE; }
    }
  }

  /** --- Effects on the flat map and on ownership --- */

  // The flat map changed at file zone k only, to z.
  ghost predicate LookupSet(g: Geometry, img: Image, img': Image, k: nat, z: Zone)
    requires 0 < g.nr && |img.izone| == |img'.izone| == 4 * (g.ndz + 3)
  {
    forall j: nat | j < g.Capacity() :: Lookup(g, img', j) == if j == k then z else Lookup(g, img, j)
  }

  ghost predicate LookupSame(g: Geometry, img: Image, img': Image)
    requires 0 < g.nr && |img.izone| == |img'.izone| == 4 * (g.ndz + 3)
  {
    forall j: nat | j < g.Capacity() :: Lookup(g, img', j) == Lookup(g, img, j)
  }

  lemma SiteUpdated(g: Geometry, img: Image, img': Image, k: nat, z: Zone)
    requires 0 < g.nr && |img.izone| == |img'.izone| == 4 * (g.ndz + 3) && k < g.Capacity()
    requires Updated(g, img, img', Site(g, k), z)
    ensures LookupSet(g, img, img', k, z)
  {
    forall j: nat | j < g.Capacity()
      ensures Lookup(g, img', j) == if j == k then z else Lookup(g, img, j)
    {
      SiteInjective(g, j, k);
      hide Target;
    }
  }

  lemma MetaUpdated(g: Geometry, img: Image, img': Image, r: Ref, z: Zone)
    requires 0 < g.nr && |img.izone| == |img'.izone| == 4 * (g.ndz + 3)
    requires Exists(g, r) && (r.Double? || r.Table?)
    requires Updated(g, img, img', r, z)
    ensures LookupSame(g, img, img')
  {
    hide Target;
  }

  // A free zone was allocated and hooked in at r, which was empty.
  lemma Attached(g: Geometry, img: Image, img': Image, r: Ref, z: Zone, inUse: set<Zone>, others: set<Zone>)
    requires Formatted(g, img) && Formatted(g, img') && Exists(g, r)
    requires Separated(g, img) && Owns(g, img, inUse, others)
    requires Target(g, img, r) == NO_ZONE && g.InRange(z) && z !in inUse
    requires Updated(g, img, img', r, z)
    ensures Separated(g, img') && Owns(g, img', inUse + {z}, others)
  {
    hide Target;
    assert Owns(g, img, inUse + {z}, others + {z});
    OwnsAfterUpdate(g, img, img', r, z, inUse + {z}, others + {z});
    assert z !in others;
    assert With(Without(others + {z}, z), NO_ZONE) == others;
  }

  // The zone hooked in at r was unhooked and freed.
  lemma Detached(g: Geometry, img: Image, img': Image, r: Ref, inUse: set<Zone>, others: set<Zone>)
    requires Formatted(g, img) && Formatted(g, img') && Exists(g, r)
    requires Separated(g, img) && Owns(g, img, inUse, others)
    requires Target(g, img, r) != NO_ZONE
    requires Updated(g, img, img', r, NO_ZONE)
    ensures Target(g, img, r) in inUse
    ensures Separated(g, img') && Owns(g, img', inUse - {Target(g, img, r)}, others)
  {
    hide Target;
    var w := Target(g, img, r);
    assert Referenced(g, img, w);
    OwnsAfterUpdate(g, img, img', r, NO_ZONE, inUse, others);
    assert NO_ZONE !in others;
    var others' := With(Without(others, NO_ZONE), w);
    assert others' == others + {w};
    assert w in others';
  }

  // A zone that holds an indirect block of this inode.
  ghost predicate IsMeta(g: Geometry, img: Image, z: Zone)
    requires |img.izone| == 4 * (g.ndz + 3)
  {
    z != NO_ZONE && (z == Target(g, img, Double) || exists m: nat | m <= g.nr :: Target(g, img, Table(m)) == z)
  }

  // Zones in use keep their contents, except indirect blocks.
  ghost predicate DataKept(g: Geometry, img: Image, img': Image, inUse: set<Zone>)
    requires |img.izone| == 4 * (g.ndz + 3)
  {
    forall z | z in inUse && !IsMeta(g, img, z) && z in img.disk :: z in img'.disk && img'.disk[z] == img.disk[z]
  }

  ghost predicate TableEmpty(g: Geometry, img: Image, m: nat)
    requires |img.izone| == 4 * (g.ndz + 3) && m <= g.nr
  {
    forall e: nat | e < g.nr :: Target(g, img, Slot(m, e)) == NO_ZONE
  }

  ghost predicate DoubleEmpty(g: Geometry, img: Image)
    requires |img.izone| == 4 * (g.ndz + 3)
  {
    forall m: nat | 0 < m <= g.nr :: Target(g, img, Table(m)) == NO_ZONE
  }

  // Beyond the double indirect block exactly when its entry number is.
  lemma BeyondCapacity(x: nat, n: nat)
    requires 0 < n <= x
    ensures (x - n) / n >= n <==> x >= n + n * n
  {
    if x < n + n * n { DivBound(x - n, n, n); }
    if (x - n) / n < n { MulMono(n, (x - n) / n + 1, n); }
  }

  /** What freeing file zone k does to the indirect blocks: the single indirect
      block over k goes exactly when it has no other entry, the double indirect
      block exactly when it then has none; nothing else is unhooked. */
  ghost predicate Pruned(g: Geometry, img: Image, img': Image, k: nat)
    requires 0 < g.nr && |img.izone| == |img'.izone| == 4 * (g.ndz + 3) && k < g.Capacity()
  {
    match Site(g, k)
    case Direct(_) =>
      && SameAt(g, img, img', Double)
      && (forall m: nat | m <= g.nr :: SameAt(g, img, img', Table(m)))
    case Slot(m, e) =>
      && (forall n: nat | n <= g.nr && n != m :: SameAt(g, img, img', Table(n)))
      && (if forall e': nat | e' < g.nr && e' != e :: Target(g, img, Slot(m, e')) == NO_ZONE
          then Target(g, img', Table(m)) == NO_ZONE
          else SameAt(g, img, img', Table(m)))
      && (if m > 0 && DoubleEmpty(g, img')
          then Target(g, img', Double) == NO_ZONE
          else SameAt(g, img, img', Double))
  }

  ghost predicate SameAt(g: Geometry, img: Image, img': Image, r: Ref)
    requires |img.izone| == |img'.izone| == 4 * (g.ndz + 3) && Exists(g, r)
  {
    Target(g, img', r) == Target(g, img, r)
  }
}
