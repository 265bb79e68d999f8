/** What write_map promises, as a relation between images, with the proof steps
    for each of its exits. */
module WriteMapSpec {
  import opened Arithmetic
  import opened ZoneWords
  import opened BlockMap

  ghost predicate Mapped(g: Geometry, img: Image, inUse: set<Zone>, others: set<Zone>) {
    Formatted(g, img) && Separated(g, img) && Owns(g, img, inUse, others)
  }

  ghost predicate Full(g: Geometry, inUse: set<Zone>) {
    forall z: Zone | g.InRange(z) :: z in inUse
  }

  // File zone k is mapped to z; the zone it was mapped to before is now held
  // by nobody but the caller.
  ghost predicate MapDone(g: Geometry, img: Image, img': Image, inUse': set<Zone>, others: set<Zone>,
                          k: nat, z: Zone)
    requires Formatted(g, img) && k < g.Capacity()
  {
    && Mapped(g, img', inUse', With(Without(others, z), Lookup(g, img, k)))
    && LookupSet(g, img, img', k, z)
  }

  // Nothing was mapped: only indirect blocks may have been added, and no zone is left.
  ghost predicate MapFailed(g: Geometry, img: Image, img': Image, inUse': set<Zone>, others: set<Zone>)
    requires Formatted(g, img)
  {
    && Mapped(g, img', inUse', others)
    && LookupSame(g, img, img')
    && Full(g, inUse')
  }

  // File zone k became a hole and its zone was freed.
  ghost predicate FreeDone(g: Geometry, img: Image, img': Image, inUse': set<Zone>, others: set<Zone>, k: nat)
    requires Formatted(g, img) && k < g.Capacity()
  {
    && Mapped(g, img', inUse', others)
    && LookupSet(g, img, img', k, NO_ZONE)
  }

  // write_map's promise for a position in file zone k, inside the file's range.
  ghost predicate Wrote(g: Geometry, img: Image, inUse: set<Zone>, others: set<Zone>,
                        k: nat, newZone: Zone, free: bool, ok: bool, img': Image, inUse': set<Zone>)
    requires Formatted(g, img) && k < g.Capacity()
  {
    && DataKept(g, img, img', inUse)
    && (free ==> Formatted(g, img') && Pruned(g, img, img', k))
    && (if free && !(k < g.ndz && Lookup(g, img, k) == NO_ZONE) then
          ok && FreeDone(g, img, img', inUse', others, k)
        else if ok then
          MapDone(g, img, img', inUse', others, k, newZone) && inUse <= inUse'
        else
          !free && g.ndz <= k && MapFailed(g, img, img', inUse', others) && inUse <= inUse')
  }

  // A free leaves a hole exactly if the new zone passed with it is none, or the
  // file zone is not recorded in the inode, or it was no hole before.
  lemma FreedIsHole(g: Geometry, img: Image, inUse: set<Zone>, others: set<Zone>, k: nat, newZone: Zone,
                    ok: bool, img': Image, inUse': set<Zone>)
    requires Formatted(g, img) && k < g.Capacity()
    requires Wrote(g, img, inUse, others, k, newZone, true, ok, img', inUse')
    ensures Formatted(g, img')
    ensures Lookup(g, img', k) == NO_ZONE <==> newZone == NO_ZONE || g.ndz <= k || Lookup(g, img, k) != NO_ZONE
  {
    hide Mapped, Lookup, DataKept, Pruned;
  }

  // A zone number k past the double indirect range: an error, and no change
  // except that a double indirect block that was missing may be hooked in,
  // holding whatever its zone held on disk.
  ghost predicate Refused(g: Geometry, img: Image, inUse: set<Zone>, free: bool, img': Image, inUse': set<Zone>)
    requires Formatted(g, img)
  {
    if free || Target(g, img, Double) != NO_ZONE then
      img' == img && inUse' == inUse
    else
      (img' == img && inUse' == inUse && Full(g, inUse)) ||
      (exists z: Zone | g.InRange(z) && z !in inUse ::
         img' == WithInodeZone(g, img, g.ndz + 1, z) && inUse' == inUse + {z})
  }

  /** --- Direct zones --- */

  lemma DirectSet(g: Geometry, img: Image, inUse: set<Zone>, others: set<Zone>, k: nat, z: Zone, free: bool)
    requires Mapped(g, img, inUse, others) && k < g.ndz && (z == NO_ZONE || z in others)
    requires free ==> Target(g, img, Direct(k)) == NO_ZONE
    ensures Wrote(g, img, inUse, others, k, z, free, true, WithInodeZone(g, img, k, z), inUse)
  {
    InodeZoneUpdated(g, img, k, z);
    SiteUpdated(g, img, WithInodeZone(g, img, k, z), k, z);
    hide Target;
    OwnsAfterUpdate(g, img, WithInodeZone(g, img, k, z), Direct(k), z, inUse, others);
  }

  lemma DirectFreed(g: Geometry, img: Image, inUse: set<Zone>, others: set<Zone>, k: nat, z: Zone)
    requires Mapped(g, img, inUse, others) && k < g.ndz
    requires Target(g, img, Direct(k)) != NO_ZONE
    ensures Target(g, img, Direct(k)) in inUse
    ensures Wrote(g, img, inUse, others, k, z, true, true,
                  WithInodeZone(g, img, k, NO_ZONE), inUse - {Target(g, img, Direct(k))})
  {
    InodeZoneUpdated(g, img, k, NO_ZONE);
    SiteUpdated(g, img, WithInodeZone(g, img, k, NO_ZONE), k, NO_ZONE);
    hide Target;
    var img' := WithInodeZone(g, img, k, NO_ZONE);
    Detached(g, img, img', Direct(k), inUse, others);
    assert DataKept(g, img, img', inUse);
    assert LookupSet(g, img, img', k, NO_ZONE);
    assert Lookup(g, img, k) != NO_ZONE;
    assert Pruned(g, img, img', k);
    assert Mapped(g, img', inUse - {Target(g, img, Direct(k))}, others);
  }

  /** --- Building the path to an entry --- */

  // Indirect blocks may have been added, nothing else happened.
  ghost predicate Grown(g: Geometry, img: Image, inUse: set<Zone>, others: set<Zone>, img': Image, inUse': set<Zone>)
    requires Formatted(g, img)
  {
    && Mapped(g, img', inUse', others)
    && LookupSame(g, img, img')
    && inUse <= inUse' && img.disk.Keys <= img'.disk.Keys
    && DataKept(g, img, img', inUse)
    && (forall z | z in inUse && IsMeta(g, img', z) :: IsMeta(g, img, z))
  }

  lemma GrownRefl(g: Geometry, img: Image, inUse: set<Zone>, others: set<Zone>)
    requires Mapped(g, img, inUse, others)
    ensures Grown(g, img, inUse, others, img, inUse)
  {
  }

  lemma GrownTrans(g: Geometry, img: Image, inUse: set<Zone>, others: set<Zone>,
                   img1: Image, inUse1: set<Zone>, img2: Image, inUse2: set<Zone>)
    requires Formatted(g, img)
    requires Grown(g, img, inUse, others, img1, inUse1)
    requires Grown(g, img1, inUse1, others, img2, inUse2)
    ensures Grown(g, img, inUse, others, img2, inUse2)
  {
    hide Target, Lookup, IsMeta, Formatted, Separated, Owns;
  }

  lemma MetaAttached(g: Geometry, img: Image, img': Image, r: Ref, z: Zone, inUse: set<Zone>, others: set<Zone>)
    requires Mapped(g, img, inUse, others) && Formatted(g, img')
    requires Exists(g, r) && (r.Double? || r.Table?) && Target(g, img, r) == NO_ZONE
    requires g.InRange(z) && z !in inUse
    requires Updated(g, img, img', r, z)
    requires DataKept(g, img, img', inUse) && img.disk.Keys <= img'.disk.Keys
    ensures Grown(g, img, inUse, others, img', inUse + {z})
  {
    hide Target;
    Attached(g, img, img', r, z, inUse, others);
    MetaUpdated(g, img, img', r, z);
    forall y | y in inUse && IsMeta(g, img', y) ensures IsMeta(g, img, y) {
      if y != Target(g, img', Double) {
        var m: nat :| m <= g.nr && Target(g, img', Table(m)) == y;
        assert Target(g, img, Table(m)) == y;
      }
    }
  }

  // The double indirect block was created and zeroed.
  lemma DoubleGrown(g: Geometry, img: Image, inUse: set<Zone>, others: set<Zone>, z: Zone)
    requires Mapped(g, img, inUse, others)
    requires Target(g, img, Double) == NO_ZONE && g.InRange(z) && z !in inUse
    ensures Grown(g, img, inUse, others,
                  WithBlock(WithInodeZone(g, img, g.ndz + 1, z), z, Zeros(g.BlockSize())), inUse + {z})
    ensures Target(g, WithBlock(WithInodeZone(g, img, g.ndz + 1, z), z, Zeros(g.BlockSize())), Double) == z
  {
    DoubleAttached(g, img, z);
    hide Target;
    var img' := WithBlock(WithInodeZone(g, img, g.ndz + 1, z), z, Zeros(g.BlockSize()));
    MetaAttached(g, img, img', Double, z, inUse, others);
  }

  // A single indirect block was created and zeroed.
  lemma TableGrown(g: Geometry, img: Image, inUse: set<Zone>, others: set<Zone>, m: nat, z: Zone)
    requires Mapped(g, img, inUse, others) && m <= g.nr
    requires m == 0 || Target(g, img, Double) != NO_ZONE
    requires Target(g, img, Table(m)) == NO_ZONE && g.InRange(z) && z !in inUse
    ensures Grown(g, img, inUse, others, TableAttachedImage(g, img, m, z), inUse + {z})
    ensures Target(g, TableAttachedImage(g, img, m, z), Table(m)) == z
  {
    TableAttached(g, img, m, z);
    var img' := TableAttachedImage(g, img, m, z);
    assert DataKept(g, img, img', inUse) by {
      assert m > 0 ==> IsMeta(g, img, Target(g, img, Double));
      hide Target;
    }
    hide Target;
    MetaAttached(g, img, img', Table(m), z, inUse, others);
  }

  // The last step: the entry itself.
  lemma SlotSet(g: Geometry, img: Image, inUse: set<Zone>, others: set<Zone>,
                img1: Image, inUse1: set<Zone>, m: nat, e: nat, k: nat, z: Zone)
    requires Formatted(g, img) && Grown(g, img, inUse, others, img1, inUse1)
    requires k < g.Capacity() && Site(g, k) == Slot(m, e)
    requires Target(g, img1, Table(m)) != NO_ZONE && (z == NO_ZONE || z in others)
    ensures Wrote(g, img, inUse, others, k, z, false, true, WithEntry(g, img1, Target(g, img1, Table(m)), e, z), inUse1)
  {
    var t := Target(g, img1, Table(m));
    var img' := WithEntry(g, img1, t, e, z);
    SlotUpdated(g, img1, m, e, z);
    SiteUpdated(g, img1, img', k, z);
    OwnsAfterUpdate(g, img1, img', Slot(m, e), z, inUse1, others);
    assert IsMeta(g, img1, t);
    assert Lookup(g, img1, k) == Lookup(g, img, k);
    hide Target;
  }

  lemma DoubleRefused(g: Geometry, img: Image, inUse: set<Zone>, others: set<Zone>, k: nat, z: Zone)
    requires Mapped(g, img, inUse, others) && g.ndz <= k < g.Capacity() && Full(g, inUse)
    ensures Wrote(g, img, inUse, others, k, z, false, false, img, inUse)
  {
    hide Target;
  }

  // Allocation failed on the way; the entry for the missing block is cleared again.
  lemma TableRefused(g: Geometry, img: Image, inUse: set<Zone>, others: set<Zone>,
                     img1: Image, inUse1: set<Zone>, m: nat, k: nat, z: Zone)
    requires Formatted(g, img) && Grown(g, img, inUse, others, img1, inUse1)
    requires g.ndz <= k < g.Capacity() && m <= g.nr && (m == 0 || Target(g, img1, Double) != NO_ZONE)
    requires Target(g, img1, Table(m)) == NO_ZONE && Full(g, inUse1)
    ensures Wrote(g, img, inUse, others, k, z, false, false, TableDetachedImage(g, img1, m), inUse1)
  {
    TableDetached(g, img1, m);
    var img' := TableDetachedImage(g, img1, m);
    MetaUpdated(g, img1, img', Table(m), NO_ZONE);
    OwnsAfterUpdate(g, img1, img', Table(m), NO_ZONE, inUse1, others);
    assert NO_ZONE !in others;
    assert m > 0 ==> IsMeta(g, img1, Target(g, img1, Double));
    hide Target;
    assert With(Without(others, NO_ZONE), NO_ZONE) == others;
  }

  /** --- Freeing an entry and the blocks it leaves empty --- */

  // img' is img after the entry of file zone k, and perhaps blocks above it, went.
  ghost predicate Shrunk(g: Geometry, img: Image, inUse: set<Zone>, others: set<Zone>, k: nat,
                         img': Image, inUse': set<Zone>)
    requires Formatted(g, img) && k < g.Capacity()
  {
    && Mapped(g, img', inUse', others)
    && LookupSet(g, img, img', k, NO_ZONE)
    && DataKept(g, img, img', inUse)
  }

  lemma SlotFreed(g: Geometry, img: Image, inUse: set<Zone>, others: set<Zone>, m: nat, e: nat, k: nat)
    requires Mapped(g, img, inUse, others)
    requires k < g.Capacity() && Site(g, k) == Slot(m, e)
    requires Target(g, img, Slot(m, e)) != NO_ZONE
    ensures Target(g, img, Table(m)) != NO_ZONE && Target(g, img, Slot(m, e)) in inUse
    ensures var img' := WithEntry(g, img, Target(g, img, Table(m)), e, NO_ZONE);
            && Shrunk(g, img, inUse, others, k, img', inUse - {Target(g, img, Slot(m, e))})
            && Updated(g, img, img', Slot(m, e), NO_ZONE)
            && SameAt(g, img, img', Double) && SameAt(g, img, img', Table(m))
  {
    var t := Target(g, img, Table(m));
    var img' := WithEntry(g, img, t, e, NO_ZONE);
    SlotUpdated(g, img, m, e, NO_ZONE);
    SiteUpdated(g, img, img', k, NO_ZONE);
    Detached(g, img, img', Slot(m, e), inUse, others);
    assert IsMeta(g, img, t);
    hide Target;
  }

  lemma NothingToFree(g: Geometry, img: Image, inUse: set<Zone>, others: set<Zone>, m: nat, e: nat, k: nat)
    requires Mapped(g, img, inUse, others)
    requires k < g.Capacity() && Site(g, k) == Slot(m, e)
    requires Target(g, img, Slot(m, e)) == NO_ZONE
    ensures Shrunk(g, img, inUse, others, k, img, inUse)
    ensures Updated(g, img, img, Slot(m, e), NO_ZONE)
  {
    assert Updated(g, img, img, Slot(m, e), NO_ZONE);
    SiteUpdated(g, img, img, k, NO_ZONE);
  }

  lemma TableFreed(g: Geometry, img: Image, inUse: set<Zone>, others: set<Zone>, m: nat, e: nat, k: nat,
                   img1: Image, inUse1: set<Zone>)
    requires Formatted(g, img) && k < g.Capacity() && Site(g, k) == Slot(m, e)
    requires Shrunk(g, img, inUse, others, k, img1, inUse1)
    requires Updated(g, img, img1, Slot(m, e), NO_ZONE)
    requires Target(g, img1, Table(m)) != NO_ZONE && TableEmpty(g, img1, m)
    ensures m == 0 || g.InRange(Target(g, img1, Double))
    ensures Target(g, img1, Table(m)) in inUse1
    ensures var img' := TableDetachedImage(g, img1, m);
            && Shrunk(g, img, inUse, others, k, img', inUse1 - {Target(g, img1, Table(m))})
            && Updated(g, img1, img', Table(m), NO_ZONE)
            && SameAt(g, img1, img', Double) && Target(g, img', Table(m)) == NO_ZONE
  {
    var img' := TableDetachedImage(g, img1, m);
    TableDetached(g, img1, m);
    MetaUpdated(g, img1, img', Table(m), NO_ZONE);
    Detached(g, img1, img', Table(m), inUse1, others);
    assert Target(g, img1, Double) == Target(g, img, Double);
    assert m > 0 ==> IsMeta(g, img, Target(g, img, Double));
    hide Target;
  }

  lemma DoubleFreed(g: Geometry, img: Image, inUse: set<Zone>, others: set<Zone>, k: nat,
                    img2: Image, inUse2: set<Zone>)
    requires Formatted(g, img) && k < g.Capacity()
    requires Shrunk(g, img, inUse, others, k, img2, inUse2)
    requires Target(g, img2, Double) != NO_ZONE && DoubleEmpty(g, img2)
    ensures Target(g, img2, Double) in inUse2
    ensures var img' := WithInodeZone(g, img2, g.ndz + 1, NO_ZONE);
            && Shrunk(g, img, inUse, others, k, img', inUse2 - {Target(g, img2, Double)})
            && Updated(g, img2, img', Double, NO_ZONE)
  {
    var img' := WithInodeZone(g, img2, g.ndz + 1, NO_ZONE);
    DoubleDetached(g, img2);
    MetaUpdated(g, img2, img', Double, NO_ZONE);
    Detached(g, img2, img', Double, inUse2, others);
    hide Target;
  }

  // The three steps together; a step whose condition fails changes nothing.
  lemma FreeSteps(g: Geometry, img: Image, inUse: set<Zone>, others: set<Zone>, m: nat, e: nat, k: nat, z: Zone,
                  img1: Image, img2: Image, img3: Image, inUse3: set<Zone>)
    requires Formatted(g, img) && k < g.Capacity() && Site(g, k) == Slot(m, e)
    requires Formatted(g, img1) && Updated(g, img, img1, Slot(m, e), NO_ZONE)
    requires Formatted(g, img2)
    requires if Target(g, img1, Table(m)) != NO_ZONE && TableEmpty(g, img1, m)
             then Updated(g, img1, img2, Table(m), NO_ZONE) else img2 == img1
    requires Formatted(g, img3)
    requires if m > 0 && Target(g, img2, Table(m)) == NO_ZONE && Target(g, img2, Double) != NO_ZONE && DoubleEmpty(g, img2)
             then Updated(g, img2, img3, Double, NO_ZONE) else img3 == img2
    requires Shrunk(g, img, inUse, others, k, img3, inUse3)
    ensures Wrote(g, img, inUse, others, k, z, true, true, img3, inUse3)
  {
    assert Target(g, img, Table(m)) == NO_ZONE ==> TableEmpty(g, img, m);
    assert k >= g.ndz;
    hide Target;
    assert SameAt(g, img, img1, Double) && SameAt(g, img1, img2, Double);
    forall n: nat | n <= g.nr ensures SameAt(g, img, img3, Table(n)) || n == m {
      assert Target(g, img1, Table(n)) == Target(g, img, Table(n));
      if n != m { assert Target(g, img2, Table(n)) == Target(g, img1, Table(n)); }
      assert Target(g, img3, Table(n)) == Target(g, img2, Table(n));
    }
    assert Target(g, img1, Table(m)) == Target(g, img, Table(m));
    assert Target(g, img3, Table(m)) == Target(g, img2, Table(m));
    forall e': nat | e' < g.nr
      ensures Target(g, img1, Slot(m, e')) == if e' == e then NO_ZONE else Target(g, img, Slot(m, e'))
    {
    }
    assert TableEmpty(g, img1, m) <==> forall e': nat | e' < g.nr && e' != e :: Target(g, img, Slot(m, e')) == NO_ZONE;
    assert DoubleEmpty(g, img3) <==> DoubleEmpty(g, img2) by {
      assert forall n: nat | n <= g.nr :: Target(g, img3, Table(n)) == Target(g, img2, Table(n));
    }
    assert Pruned(g, img, img3, k);
  }

  /** --- What the words read by write_map and read_map mean --- */

  lemma InodeWords(g: Geometry, img: Image)
    requires Formatted(g, img)
    ensures forall i: nat | i < g.ndz :: Word(img.izone, i) == Target(g, img, Direct(i))
    ensures Word(img.izone, g.ndz) == Target(g, img, Table(0))
    ensures Word(img.izone, g.ndz + 1) == Target(g, img, Double)
  {
  }

  lemma DoubleWord(g: Geometry, img: Image, m: nat)
    requires Formatted(g, img) && Separated(g, img) && 0 < m <= g.nr
    ensures Target(g, img, Table(m)) == NO_ZONE || g.InRange(Target(g, img, Table(m)))
    ensures Target(g, img, Double) == NO_ZONE ==> Target(g, img, Table(m)) == NO_ZONE
    ensures Target(g, img, Double) != NO_ZONE ==>
              g.InRange(Target(g, img, Double))
              && Word(img.disk[Target(g, img, Double)], m - 1) == Target(g, img, Table(m))
  {
  }

  lemma TableWord(g: Geometry, img: Image, m: nat, e: nat)
    requires Formatted(g, img) && Separated(g, img) && m <= g.nr && e < g.nr
    ensures Target(g, img, Slot(m, e)) == NO_ZONE || g.InRange(Target(g, img, Slot(m, e)))
    ensures Target(g, img, Table(m)) == NO_ZONE ==> Target(g, img, Slot(m, e)) == NO_ZONE
    ensures Target(g, img, Table(m)) != NO_ZONE ==>
              g.InRange(Target(g, img, Table(m)))
              && Word(img.disk[Target(g, img, Table(m))], e) == Target(g, img, Slot(m, e))
  {
  }

  lemma TableWords(g: Geometry, img: Image, inUse: set<Zone>, others: set<Zone>, m: nat)
    requires Mapped(g, img, inUse, others) && m <= g.nr && Target(g, img, Table(m)) != NO_ZONE
    ensures g.InRange(Target(g, img, Table(m)))
    ensures TableEmpty(g, img, m) <==>
              forall e: nat | e < g.nr :: Word(img.disk[Target(g, img, Table(m))], e) == NO_ZONE
  {
    forall e: nat | e < g.nr
      ensures Word(img.disk[Target(g, img, Table(m))], e) == Target(g, img, Slot(m, e))
    {
      TableWord(g, img, m, e);
    }
    hide Target;
  }

  lemma DoubleWords(g: Geometry, img: Image, inUse: set<Zone>, others: set<Zone>)
    requires Mapped(g, img, inUse, others) && Target(g, img, Double) != NO_ZONE
    ensures g.InRange(Target(g, img, Double))
    ensures DoubleEmpty(g, img) <==>
              forall e: nat | e < g.nr :: Word(img.disk[Target(g, img, Double)], e) == NO_ZONE
  {
    forall e: nat | e < g.nr
      ensures Word(img.disk[Target(g, img, Double)], e) == Target(g, img, Table(e + 1))
    {
      DoubleWord(g, img, e + 1);
    }
    hide Target;
    if forall e: nat | e < g.nr :: Word(img.disk[Target(g, img, Double)], e) == NO_ZONE {
      forall m: nat | 0 < m <= g.nr ensures Target(g, img, Table(m)) == NO_ZONE {
        assert Word(img.disk[Target(g, img, Double)], m - 1) == NO_ZONE;
      }
    }
  }

  // The division write_map and read_map do is the one Site makes.
  lemma SiteOfSingle(g: Geometry, k: nat)
    requires 0 < g.nr && g.ndz <= k && k - g.ndz < g.nr
    ensures k < g.Capacity() && Site(g, k) == Slot(0, k - g.ndz)
  {
  }

  lemma SiteOfDouble(g: Geometry, k: nat)
    requires 0 < g.nr && g.ndz + g.nr <= k
    ensures (k - g.ndz - g.nr) / g.nr >= g.nr <==> k >= g.Capacity()
    ensures k < g.Capacity() ==>
              Site(g, k) == Slot((k - g.ndz - g.nr) / g.nr + 1, (k - g.ndz - g.nr) % g.nr)
  {
    BeyondCapacity(k - g.ndz, g.nr);
    DivShift(k - g.ndz, g.nr);
  }

  lemma GrownDouble(g: Geometry, img: Image, inUse: set<Zone>, others: set<Zone>,
                    img1: Image, inUse1: set<Zone>, m: nat)
    requires Formatted(g, img) && Grown(g, img, inUse, others, img1, inUse1) && 0 < m <= g.nr
    requires Target(g, img1, Double) != NO_ZONE
    ensures Formatted(g, img1) && Separated(g, img1)
    ensures g.InRange(Target(g, img1, Double))
    ensures Word(img1.disk[Target(g, img1, Double)], m - 1) == Target(g, img1, Table(m))
    ensures Target(g, img1, Table(m)) == NO_ZONE || g.InRange(Target(g, img1, Table(m)))
  {
    DoubleWord(g, img1, m);
    hide Target;
  }

  lemma GrownTable(g: Geometry, img: Image, inUse: set<Zone>, others: set<Zone>,
                   img1: Image, inUse1: set<Zone>, m: nat, e: nat)
    requires Formatted(g, img) && Grown(g, img, inUse, others, img1, inUse1) && m <= g.nr && e < g.nr
    requires Target(g, img1, Table(m)) != NO_ZONE
    ensures Formatted(g, img1) && Separated(g, img1)
    ensures g.InRange(Target(g, img1, Table(m)))
    ensures Word(img1.disk[Target(g, img1, Table(m))], e) == Target(g, img1, Slot(m, e))
    ensures Target(g, img1, Slot(m, e)) == NO_ZONE || g.InRange(Target(g, img1, Slot(m, e)))
  {
    TableWord(g, img1, m, e);
    hide Target;
  }

  lemma ShrunkMapped(g: Geometry, img: Image, inUse: set<Zone>, others: set<Zone>, k: nat, img': Image, inUse': set<Zone>)
    requires Formatted(g, img) && k < g.Capacity()
    requires Shrunk(g, img, inUse, others, k, img', inUse')
    ensures Mapped(g, img', inUse', others)
  {
  }

  lemma GrownMapped(g: Geometry, img: Image, inUse: set<Zone>, others: set<Zone>, img1: Image, inUse1: set<Zone>)
    requires Formatted(g, img) && Grown(g, img, inUse, others, img1, inUse1)
    ensures Mapped(g, img1, inUse1, others)
  {
  }

  /** --- new_block --- */

  // File zone k has the zeroed block b, and the other zones in use that are not
  // indirect blocks of this file are as before; without a block (b is NO_BLOCK)
  // the flat map is unchanged and at most one zone of the volume is free.
  ghost predicate Acquired(g: Geometry, img: Image, inUse: set<Zone>, others: set<Zone>, k: nat,
                           b: nat, img': Image, inUse': set<Zone>)
    requires Formatted(g, img) && k < g.Capacity()
  {
    && Mapped(g, img', inUse', others)
    && inUse <= inUse'
    && (b == 0 ==> && Lookup(g, img, k) == NO_ZONE
                   && LookupSame(g, img, img') && DataKept(g, img, img', inUse)
                   && (k < g.ndz ==> Full(g, inUse))
                   && forall y, z: Zone | g.InRange(y) && g.InRange(z) && y !in inUse' && z !in inUse' :: y == z)
    && (b != 0 ==> && b < 0x1_0000_0000 && g.InRange(b)
                   && img'.disk[b] == Zeros(g.BlockSize())
                   && LookupSet(g, img, img', k, b)
                   && (if Lookup(g, img, k) == NO_ZONE then b !in inUse
                       else b == Lookup(g, img, k) && img'.izone == img.izone && inUse' == inUse)
                   && forall z: Zone | z in inUse && z != b && !IsMeta(g, img, z) && z in img.disk ::
                        img'.disk[z] == img.disk[z])
  }

  // Where the disk says the zone of file zone k is: in i_zone, in the block that i_zone
  // names after the direct zones, or in one that the block named next names.
  lemma LookupByRange(g: Geometry, img: Image, k: nat)
    requires 0 < g.nr && |img.izone| == 4 * (g.ndz + 3) && k < g.Capacity()
    ensures k < g.ndz ==> Lookup(g, img, k) == Word(img.izone, k)
    ensures g.ndz <= k < g.ndz + g.nr ==> Lookup(g, img, k) == Entry(img, Word(img.izone, g.ndz), k - g.ndz)
    ensures g.ndz + g.nr <= k ==>
              var x := k - g.ndz - g.nr;
              Lookup(g, img, k) == Entry(img, Entry(img, Word(img.izone, g.ndz + 1), x / g.nr), x % g.nr)
  {
    hide Word, Entry, Geometry.Capacity;
    if g.ndz <= k < g.ndz + g.nr {
      SiteOfSingle(g, k);
    } else if g.ndz + g.nr <= k {
      SiteOfDouble(g, k);
    }
  }

  lemma MappedFacts(g: Geometry, img: Image, inUse: set<Zone>, others: set<Zone>)
    requires Mapped(g, img, inUse, others)
    ensures g.Sane() && |img.izone| == 4 * (g.ndz + 3) && NO_ZONE !in others
  {
  }

  lemma NoZoneLeft(g: Geometry, img: Image, inUse: set<Zone>, others: set<Zone>, k: nat)
    requires Mapped(g, img, inUse, others) && k < g.Capacity() && Full(g, inUse)
    requires Lookup(g, img, k) == NO_ZONE
    ensures Acquired(g, img, inUse, others, k, 0, img, inUse)
  {
    hide Target;
  }

  lemma TakeZone(g: Geometry, img: Image, inUse: set<Zone>, others: set<Zone>, z: Zone)
    requires Mapped(g, img, inUse, others) && g.InRange(z) && z !in inUse
    ensures Mapped(g, img, inUse + {z}, others + {z})
    ensures z !in others
  {
    hide Target;
  }

  lemma GiveZone(g: Geometry, img: Image, inUse: set<Zone>, others: set<Zone>, z: Zone)
    requires Mapped(g, img, inUse, others + {z}) && z !in others
    ensures z in inUse && Mapped(g, img, inUse - {z}, others)
  {
    hide Target;
    assert z in others + {z};
  }

  // Between write_map and zero_block: the block is mapped, its content is open.
  ghost predicate Hooked(g: Geometry, img: Image, inUse: set<Zone>, others: set<Zone>, k: nat,
                         b: Zone, img': Image, inUse': set<Zone>)
    requires Formatted(g, img) && k < g.Capacity()
  {
    && Mapped(g, img', inUse', others) && inUse <= inUse'
    && g.InRange(b)
    && LookupSet(g, img, img', k, b)
    && DataKept(g, img, img', inUse)
    && (if Lookup(g, img, k) == NO_ZONE then b !in inUse
        else b == Lookup(g, img, k) && img'.izone == img.izone && inUse' == inUse)
  }

  lemma WroteUsable(g: Geometry, img: Image, inUse: set<Zone>, others: set<Zone>, k: nat, z: Zone,
                    ok: bool, img': Image, inUse': set<Zone>)
    requires Mapped(g, img, inUse, others) && k < g.Capacity() && Lookup(g, img, k) == NO_ZONE
    requires g.InRange(z) && z !in inUse && z !in others
    requires Wrote(g, img, inUse + {z}, others + {z}, k, z, false, ok, img', inUse')
    ensures ok ==> Hooked(g, img, inUse, others, k, z, img', inUse') && z in img'.disk && |img'.disk[z]| == g.BlockSize()
    ensures !ok ==> z in inUse' && Acquired(g, img, inUse, others, k, 0, img', inUse' - {z})
  {
    hide Target;
    if ok {
      assert With(Without(others + {z}, z), NO_ZONE) == others;
    } else {
      GiveZone(g, img', inUse', others, z);
    }
  }

  lemma MappedUsable(g: Geometry, img: Image, inUse: set<Zone>, others: set<Zone>, k: nat)
    requires Mapped(g, img, inUse, others) && k < g.Capacity() && Lookup(g, img, k) != NO_ZONE
    ensures Hooked(g, img, inUse, others, k, Lookup(g, img, k), img, inUse)
    ensures Lookup(g, img, k) in img.disk && |img.disk[Lookup(g, img, k)]| == g.BlockSize()
  {
    hide Target;
  }

  // Writing a data block changes no reference.
  lemma DataWritten(g: Geometry, img: Image, inUse: set<Zone>, others: set<Zone>, k: nat, x: Bytes)
    requires Mapped(g, img, inUse, others) && k < g.Capacity() && Lookup(g, img, k) != NO_ZONE
    requires |x| == g.BlockSize()
    ensures var img' := WithBlock(img, Lookup(g, img, k), x);
            && Mapped(g, img', inUse, others)
            && (forall r | Exists(g, r) :: Target(g, img', r) == Target(g, img, r))
            && LookupSame(g, img, img')
  {
    var b := Lookup(g, img, k);
    var img' := WithBlock(img, b, x);
    forall r | Exists(g, r) ensures Target(g, img', r) == Target(g, img, r) {
      assert Target(g, img, Site(g, k)) == b;
      assert Target(g, img, Double) != b;
      match r
      case Slot(m, e) => assert Target(g, img, Table(m)) != b;
      case _ =>
    }
    hide Target;
    assert Owns(g, img', inUse, others);
  }

  lemma Zeroed(g: Geometry, img: Image, inUse: set<Zone>, others: set<Zone>, k: nat,
               b: Zone, img1: Image, inUse': set<Zone>)
    requires Formatted(g, img) && k < g.Capacity()
    requires Hooked(g, img, inUse, others, k, b, img1, inUse')
    ensures Acquired(g, img, inUse, others, k, b, WithBlock(img1, b, Zeros(g.BlockSize())), inUse')
    ensures b != NO_ZONE
  {
    assert Lookup(g, img1, k) == b;
    DataWritten(g, img1, inUse', others, k, Zeros(g.BlockSize()));
    hide Target;
  }

  /** --- Freeing every file zone --- */

  ghost predicate FreedUpTo(g: Geometry, img: Image, k: nat)
    requires Formatted(g, img) && k <= g.Capacity()
  {
    && (forall j: nat | j < k :: Lookup(g, img, j) == NO_ZONE)
    && (forall m: nat | m <= g.nr && g.ndz + g.nr * m + g.nr <= k :: Target(g, img, Table(m)) == NO_ZONE)
    && (k == g.Capacity() ==> Target(g, img, Double) == NO_ZONE)
  }

  lemma Formed(g: Geometry, img: Image, inUse: set<Zone>, others: set<Zone>)
    requires Mapped(g, img, inUse, others)
    ensures Formatted(g, img) && FreedUpTo(g, img, 0)
  {
  }

  lemma FreedNext(g: Geometry, img: Image, inUse: set<Zone>, others: set<Zone>, k: nat,
                  ok: bool, img': Image, inUse': set<Zone>)
    requires Mapped(g, img, inUse, others) && k < g.Capacity() && FreedUpTo(g, img, k)
    requires Wrote(g, img, inUse, others, k, NO_ZONE, true, ok, img', inUse')
    ensures Mapped(g, img', inUse', others) && Formatted(g, img') && FreedUpTo(g, img', k + 1)
  {
    hide Target, Separated;
    assert NO_ZONE !in others;
    assert With(Without(others, NO_ZONE), NO_ZONE) == others;
    assert Pruned(g, img, img', k);
    assert LookupSet(g, img, img', k, NO_ZONE);
    forall m: nat | m <= g.nr && g.ndz + g.nr * m + g.nr <= k + 1
      ensures Target(g, img', Table(m)) == NO_ZONE
    {
      if g.ndz + g.nr * m + g.nr <= k {
        assert Target(g, img, Table(m)) == NO_ZONE;
      } else {
        DivModOf(m, g.nr, g.nr - 1);
        assert Site(g, k) == Slot(m, g.nr - 1);
        forall e: nat | e < g.nr && e != g.nr - 1 ensures Target(g, img, Slot(m, e)) == NO_ZONE {
          var j := SiteOnto(g, Slot(m, e));
          SiteIndex(g, j);
          assert Lookup(g, img, j) == NO_ZONE;
        }
      }
    }
    if k + 1 == g.Capacity() {
      forall m: nat | 0 < m <= g.nr ensures Target(g, img', Table(m)) == NO_ZONE {
        MulMono(g.nr, m, g.nr);
      }
      assert DoubleEmpty(g, img');
      SiteIndex(g, k);
      if Site(g, k).m < g.nr { MulMono(g.nr, Site(g, k).m + 1, g.nr); }
    }
  }

  lemma SiteIndex(g: Geometry, k: nat)
    requires 0 < g.nr && g.ndz <= k < g.Capacity()
    ensures Site(g, k).Slot? && k == g.ndz + g.nr * Site(g, k).m + Site(g, k).e
  {
  }

  // Nothing mapped and no indirect block: the file owns no zone at all.
  lemma AllFreed(g: Geometry, img: Image, inUse: set<Zone>, others: set<Zone>)
    requires Mapped(g, img, inUse, others) && FreedUpTo(g, img, g.Capacity())
    ensures inUse == others
    ensures forall i: nat | i < g.ndz + 2 :: Word(img.izone, i) == NO_ZONE
  {
    forall r | Exists(g, r) ensures Target(g, img, r) == NO_ZONE {
      match r
      case Direct(i) => assert Lookup(g, img, i) == NO_ZONE;
      case Double =>
      case Table(m) => MulMono(g.nr, m, g.nr);
      case Slot(m, e) => MulMono(g.nr, m, g.nr);
    }
    forall i: nat | i < g.ndz + 2 ensures Word(img.izone, i) == NO_ZONE {
      if i < g.ndz { assert Target(g, img, Direct(i)) == NO_ZONE; }
      else if i == g.ndz { assert Target(g, img, Table(0)) == NO_ZONE; }
    }
    hide Target;
    assert forall z :: z in inUse <==> z in others;
  }

  /** --- Positions past the double indirect range --- */

  // The double indirect block hooked in there but never zeroed is harmless
  // exactly when its zone happened to hold only zeros.
  lemma StaleDouble(g: Geometry, img: Image, inUse: set<Zone>, others: set<Zone>, z: Zone)
    requires Mapped(g, img, inUse, others) && Target(g, img, Double) == NO_ZONE
    requires g.InRange(z) && z !in inUse
    ensures Mapped(g, WithInodeZone(g, img, g.ndz + 1, z), inUse + {z}, others)
       <==> img.disk[z] == Zeros(g.BlockSize())
  {
    var img' := WithInodeZone(g, img, g.ndz + 1, z);
    if img.disk[z] == Zeros(g.BlockSize()) {
      DoubleGrown(g, img, inUse, others, z);
      assert WithBlock(img', z, Zeros(g.BlockSize())) == img';
    } else {
      AllWordsZero(img.disk[z], g.nr);
      var e: nat :| e < g.nr && Word(img.disk[z], e) != NO_ZONE;
      var w := Word(img.disk[z], e);
      WordsOfPut(g, img.izone, g.ndz + 1, z);
      assert Target(g, img', Double) == z;
      assert Target(g, img', Table(e + 1)) == w;
      if Mapped(g, img', inUse + {z}, others) {
        assert Referenced(g, img', w);
        assert w != z;
        assert Referenced(g, img, w);
        var r :| Exists(g, r) && Target(g, img, r) == w;
        assert Target(g, img', r) == w || r.Table? || r.Slot? by { hide Word; }
        SameReference(g, img, z, r);
        assert false;
      }
    }
  }

  lemma SameReference(g: Geometry, img: Image, z: Zone, r: Ref)
    requires Formatted(g, img) && Separated(g, img) && Target(g, img, Double) == NO_ZONE
    requires Exists(g, r) && Target(g, img, r) != NO_ZONE
    ensures Target(g, WithInodeZone(g, img, g.ndz + 1, z), r) == Target(g, img, r)
    ensures !(r.Table? && r.m > 0)
  {
    WordsOfPut(g, img.izone, g.ndz + 1, z);
  }

  // write_map keeps the map whole at such a position, whatever the free zones
  // hold, exactly when it frees, when there is a double indirect block already,
  // or when every free zone holds only zeros.
  lemma RefusedKeepsMap(g: Geometry, img: Image, inUse: set<Zone>, others: set<Zone>, free: bool)
    requires Mapped(g, img, inUse, others)
    ensures (forall img', inUse' | Refused(g, img, inUse, free, img', inUse') :: Mapped(g, img', inUse', others))
       <==> (free || Target(g, img, Double) != NO_ZONE
             || forall z: Zone | g.InRange(z) && z !in inUse :: img.disk[z] == Zeros(g.BlockSize()))
  {
    if !free && Target(g, img, Double) == NO_ZONE {
      forall z: Zone | g.InRange(z) && z !in inUse && img.disk[z] != Zeros(g.BlockSize())
        ensures exists img', inUse' :: Refused(g, img, inUse, free, img', inUse') && !Mapped(g, img', inUse', others)
      {
        StaleDouble(g, img, inUse, others, z);
        hide Target, Mapped, WithInodeZone;
        assert Refused(g, img, inUse, free, WithInodeZone(g, img, g.ndz + 1, z), inUse + {z});
      }
      if forall z: Zone | g.InRange(z) && z !in inUse :: img.disk[z] == Zeros(g.BlockSize()) {
        ZeroesKeepMap(g, img, inUse, others);
      }
    }
    hide Target, Mapped, WithInodeZone;
  }

  lemma ZeroesKeepMap(g: Geometry, img: Image, inUse: set<Zone>, others: set<Zone>)
    requires Mapped(g, img, inUse, others) && Target(g, img, Double) == NO_ZONE
    requires forall z: Zone | g.InRange(z) && z !in inUse :: img.disk[z] == Zeros(g.BlockSize())
    ensures forall img', inUse' | Refused(g, img, inUse, false, img', inUse') :: Mapped(g, img', inUse', others)
  {
    forall img', inUse' | Refused(g, img, inUse, false, img', inUse') && img' != img
      ensures Mapped(g, img', inUse', others)
    {
      var z: Zone :| g.InRange(z) && z !in inUse
        && img' == WithInodeZone(g, img, g.ndz + 1, z) && inUse' == inUse + {z};
      StaleDouble(g, img, inUse, others, z);
    }
    hide Target, Mapped, WithInodeZone;
  }

  // A file without zones, on a volume whose zones all hold x.
  function NewFile(g: Geometry, x: Bytes): Image {
    Image(Zeros(4 * (g.ndz + 3)), map z: Zone | 0 <= z < 0x1_0000_0000 && g.InRange(z) :: x)
  }

  lemma NoReferences(g: Geometry, img: Image, inUse: set<Zone>)
    requires Formatted(g, img) && img.izone == Zeros(4 * (g.ndz + 3))
    requires forall z | z in inUse :: g.InRange(z)
    ensures Mapped(g, img, inUse, inUse)
    ensures forall r | Exists(g, r) :: Target(g, img, r) == NO_ZONE
  {
    hide Word, Zeros;
    forall i: nat | i < g.ndz + 3 ensures Word(img.izone, i) == NO_ZONE { WordOfZeros(4 * (g.ndz + 3), i); }
    assert forall r | Exists(g, r) :: Target(g, img, r) == NO_ZONE;
  }

  lemma NewFileMapped(g: Geometry, x: Bytes)
    requires g.Sane() && |x| == g.BlockSize()
    ensures Mapped(g, NewFile(g, x), {}, {}) && Target(g, NewFile(g, x), Double) == NO_ZONE
  {
    hide Word;
    NoReferences(g, NewFile(g, x), {});
  }

  // With any geometry there is a volume on which it does break: its zones hold a
  // stray number.
  lemma StaleDoubleExample(g: Geometry)
    requires g.Sane() && g.first < g.limit
    ensures var img := NewFile(g, Zeros(g.BlockSize())[0 := 9]);
            var img' := WithInodeZone(g, img, g.ndz + 1, g.first);
            && Mapped(g, img, {}, {}) && Refused(g, img, {}, false, img', {g.first}) && !Mapped(g, img', {g.first}, {})
  {
    var z: Zone, x := g.first, Zeros(g.BlockSize())[0 := 9];
    var img := NewFile(g, x);
    NewFileMapped(g, x);
    hide Target, Mapped, WithInodeZone;
    StaleDouble(g, img, {}, {}, z);
    assert {} + {z} == {z} && img.disk[z] == x && x[0] != Zeros(g.BlockSize())[0];
    assert Refused(g, img, {}, false, WithInodeZone(g, img, g.ndz + 1, z), {} + {z});
  }
}
