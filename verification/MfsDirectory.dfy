/** Listing a directory. */
module MfsDirectory {
  import opened Arithmetic
  import opened Dirents
  import opened Errno
  import opened ZoneWords

  /** --- One call, as a function --- */

  datatype Stop = End | At(slot: nat)

  // The slots that one call lists from slot i on when used bytes are taken: until
  // the next record would not leave a byte of the user's buffer free.
  function Listed(l: Layout, d: Directory, i: nat, used: nat, size: nat): (r: (seq<nat>, Stop))
    requires 0 < l.align
    ensures forall k :: 0 <= k < |r.0| ==> i <= r.0[k] < |d.slots|
    decreases |d.slots| - i
  {
    if i >= |d.slots| then ([], End)
    else if d.slots[i].ino == 0 then Listed(l, d, i + 1, used, size)
    else
      var n := l.RecLen(NameLen(d.slots[i].name));
      if used + n >= size then ([], At(i))
      else var (rest, stop) := Listed(l, d, i + 1, used + n, size); ([i] + rest, stop)
  }

  // Nothing is skipped and nothing repeated: what is listed and what a call from
  // the stopping point on would see are the slots in use.
  ghost predicate Splits(l: Layout, d: Directory, i: nat, used: nat, size: nat, list: seq<nat>, stop: Stop)
    requires 0 < l.align
  {
    && d.InUse(i) == list + (if stop.At? then d.InUse(stop.slot) else [])
    && (stop.At? ==> i <= stop.slot < |d.slots| && d.slots[stop.slot].ino != 0 && (list != [] ==> i < stop.slot))
    && (stop.At? && list == [] ==> used + l.RecLen(NameLen(d.slots[stop.slot].name)) >= size)
  }

  lemma {:induction false} ListedSplits(l: Layout, d: Directory, i: nat, used: nat, size: nat)
    requires 0 < l.align
    ensures var (list, stop) := Listed(l, d, i, used, size); Splits(l, d, i, used, size, list, stop)
    decreases |d.slots| - i
  {
    hide Layout.RecLen, NameLen, Splits, Directory.InUse;
    if i >= |d.slots| {
      NoneLeft(l, d, i, used, size);
    } else {
      var n := l.RecLen(NameLen(d.slots[i].name));
      if d.slots[i].ino == 0 {
        ListedSplits(l, d, i + 1, used, size);
        var (list, stop) := Listed(l, d, i + 1, used, size);
        SplitsSkip(l, d, i, used, size, list, stop);
      } else if used + n < size {
        ListedSplits(l, d, i + 1, used + n, size);
        var (list, stop) := Listed(l, d, i + 1, used + n, size);
        SplitsAdd(l, d, i, used, n, size, list, stop);
      } else {
        SplitsHere(l, d, i, used, size);
      }
    }
  }

  lemma NoneLeft(l: Layout, d: Directory, i: nat, used: nat, size: nat)
    requires 0 < l.align && i >= |d.slots|
    ensures Splits(l, d, i, used, size, [], End)
  {
  }

  lemma SplitsSkip(l: Layout, d: Directory, i: nat, used: nat, size: nat, list: seq<nat>, stop: Stop)
    requires 0 < l.align && i < |d.slots| && d.slots[i].ino == 0 && Splits(l, d, i + 1, used, size, list, stop)
    ensures Splits(l, d, i, used, size, list, stop)
  {
    hide Layout.RecLen, NameLen;
  }

  lemma SplitsAdd(l: Layout, d: Directory, i: nat, used: nat, n: nat, size: nat, list: seq<nat>, stop: Stop)
    requires 0 < l.align && i < |d.slots| && d.slots[i].ino != 0 && Splits(l, d, i + 1, used + n, size, list, stop)
    ensures Splits(l, d, i, used, size, [i] + list, stop)
  {
    hide Layout.RecLen, NameLen;
    var more := if stop.At? then d.InUse(stop.slot) else [];
    assert d.InUse(i) == [i] + d.InUse(i + 1);
    assert [i] + (list + more) == ([i] + list) + more;
  }

  lemma SplitsHere(l: Layout, d: Directory, i: nat, used: nat, size: nat)
    requires 0 < l.align && i < |d.slots| && d.slots[i].ino != 0 && used + l.RecLen(NameLen(d.slots[i].name)) >= size
    ensures Splits(l, d, i, used, size, [], At(i))
  {
    assert [] + d.InUse(i) == d.InUse(i);
  }

  /** --- The request --- */

  // What is left of a directory at the start of a block is whole blocks.
  lemma BlockFits(x: nat, n: nat)
    requires 0 < n && 0 < x && x % n == 0
    ensures x >= n && (x - n) % n == 0
  {
    var q := x / n;
    assert x == n * q;
    assert q > 0;
    Distribute(n, q - 1);
    DivModOf(q - 1, n, 0);
  }

  lemma BlockStart(i: nat, x: nat, n: nat)
    requires 0 < n && x % n == 0
    ensures 0 <= i % n < n && i - i % n >= 0
    ensures if i < x then (x - (i - i % n)) % n == 0 else x <= i - i % n
  {
    var a, c := i / n, x / n;
    Multiples(n, a, i % n, c);
    assert i == n * a + i % n && x == n * c;
  }

  lemma Multiples(n: nat, a: nat, o: nat, c: nat)
    requires o < n
    ensures if n * a + o < n * c then n * c >= n * a && (n * c - n * a) % n == 0 else n * c <= n * a
  {
    if c <= a {
      MulMono(n, c, a);
    } else {
      MulMono(n, a + 1, c);
      Distribute(n, a);
      Difference(n, c, a);
      DivModOf(c - a, n, 0);
    }
  }

  lemma Difference(n: nat, c: nat, a: nat)
    requires a <= c
    ensures n * (c - a) == n * c - n * a
  {
  }

  // One more record at the end of what the temporary buffer holds; the bytes of its
  // padding are not written.
  method PutRecord(l: Layout, types: nat -> Byte, buf: Bytes, off: nat, e: Direct) returns (buf': Bytes)
    requires l.Sane() && |e.name| == MFS_NAME_MAX && off + l.RecLen(NameLen(e.name)) <= |buf|
    ensures |buf'| == |buf|
    ensures IsRecord(l, types, e, buf'[off..off + l.RecLen(NameLen(e.name))])
    ensures var m := |Meaning(l, types, e)|;
            forall j :: 0 <= j < |buf| && !(off <= j < off + m) ==> buf'[j] == buf[j]
  {
    hide Layout.RecLen, NameLen;
    var m := Meaning(l, types, e);
    buf' := buf[..off] + m + buf[off + |m|..];
    assert buf'[off..off + |m|] == m;
  }

  /** What is left to list, and what the whole call lists. */
  ghost predicate OnCourse(l: Layout, d: Directory, i0: nat, size: nat, list: seq<nat>, i: nat, used: nat)
    requires 0 < l.align
  {
    Listed(l, d, i0, 0, size) == (list + Listed(l, d, i, used, size).0, Listed(l, d, i, used, size).1)
  }

  lemma OnCourseSkip(l: Layout, d: Directory, i0: nat, size: nat, list: seq<nat>, i: nat, used: nat)
    requires 0 < l.align && OnCourse(l, d, i0, size, list, i, used) && i < |d.slots| && d.slots[i].ino == 0
    ensures OnCourse(l, d, i0, size, list, i + 1, used)
  {
  }

  lemma OnCourseAdd(l: Layout, d: Directory, i0: nat, size: nat, list: seq<nat>, i: nat, used: nat)
    requires 0 < l.align && OnCourse(l, d, i0, size, list, i, used) && i < |d.slots| && d.slots[i].ino != 0
    requires used + l.RecLen(NameLen(d.slots[i].name)) < size
    ensures OnCourse(l, d, i0, size, list + [i], i + 1, used + l.RecLen(NameLen(d.slots[i].name)))
  {
    var n := l.RecLen(NameLen(d.slots[i].name));
    hide Layout.RecLen, NameLen;
    var rest := Listed(l, d, i + 1, used + n, size).0;
    assert list + ([i] + rest) == (list + [i]) + rest;
  }

  /** A request under way: what it has listed, in the user's buffer and in the
      temporary one, and the slot it has come to. */
  ghost predicate UnderWay(l: Layout, types: nat -> Byte, d: Directory, i0: nat, size: nat,
                           user: Bytes, buf: Bytes, tmpOff: nat, list: seq<nat>, i: nat)
    requires l.Sane() && Named(d)
  {
    && Slots(d, list) && Buffer(user, buf, tmpOff) == Filled(l, types, d, list)
    && OnCourse(l, d, i0, size, list, i, |user| + tmpOff)
    && (list != [] ==> |user| + tmpOff < size)
  }

  // A slot in use for which the user has space; a full temporary buffer is first
  // copied out.
  method TakeEntry(l: Layout, types: nat -> Byte, d: Directory, ghost i0: nat, size: nat,
                   user: Bytes, buf: Bytes, tmpOff: nat, ghost list: seq<nat>, i: nat)
    returns (user': Bytes, buf': Bytes, tmpOff': nat)
    requires l.Sane() && Named(d) && i < |d.slots| && d.slots[i].ino != 0
    requires UnderWay(l, types, d, i0, size, user, buf, tmpOff, list, i)
    requires |user| + tmpOff + l.RecLen(NameLen(d.slots[i].name)) < size
    ensures UnderWay(l, types, d, i0, size, user', buf', tmpOff', list + [i], i + 1)
  {
    hide Layout.RecLen, Layout.BufSize, NameLen, OnCourse, IsRecord, Meaning, Layout.Sane, Filled;
    ghost var t := Filled(l, types, d, list);
    user', tmpOff' := user, tmpOff;
    var e := d.slots[i];
    var reclen := l.RecLen(NameLen(e.name));
    OneFits(l, NameLen(e.name));
    if tmpOff' + reclen >= l.BufSize() {
      user' := user' + buf[..tmpOff'];
      tmpOff' := 0;
    }
    buf' := PutRecord(l, types, buf, tmpOff', e);
    PutIs(l, types, buf, tmpOff', e, buf');
    assert Buffer(user', buf', tmpOff' + reclen) == Put(l, types, t, e);
    FilledAdd(l, types, d, list, i);
    OnCourseAdd(l, d, i0, size, list, i, |user| + tmpOff);
    tmpOff' := tmpOff' + reclen;
  }

  lemma PutIs(l: Layout, types: nat -> Byte, buf: Bytes, off: nat, e: Direct, buf': Bytes)
    requires l.Sane() && off + l.RecLen(NameLen(e.name)) <= |buf| == |buf'|
    requires IsRecord(l, types, e, buf'[off..off + l.RecLen(NameLen(e.name))])
    requires var m := |Meaning(l, types, e)|;
             forall j :: 0 <= j < |buf| && !(off <= j < off + m) ==> buf'[j] == buf[j]
    ensures var m := Meaning(l, types, e);
            |m| <= l.RecLen(NameLen(e.name)) && buf' == buf[..off] + m + buf[off + |m|..]
  {
    hide Layout.RecLen, NameLen, Layout.Sane, Meaning;
    var n, m := l.RecLen(NameLen(e.name)), Meaning(l, types, e);
    var rec := buf'[off..off + n];
    assert rec[..|m|] == m;
    forall j | off <= j < off + |m| ensures buf'[j] == m[j - off] {
      assert rec[j - off] == m[j - off];
    }
  }

  lemma FilledAdd(l: Layout, types: nat -> Byte, d: Directory, list: seq<nat>, i: nat)
    requires l.Sane() && Named(d) && Slots(d, list) && i < |d.slots|
    ensures Slots(d, list + [i])
    ensures Filled(l, types, d, list + [i]) == Put(l, types, Filled(l, types, d, list), d.slots[i])
  {
    hide Put;
    assert (list + [i])[..|list + [i]| - 1] == list;
  }

  /** What the user gets: the records of the listed slots, padded with zeros exactly
      if all is clean, as it is while less than a temporary buffer has been used. */
  ghost predicate Delivered(l: Layout, types: nat -> Byte, d: Directory, list: seq<nat>, user: Bytes)
    requires l.Sane() && Slots(d, list)
  {
    && Named(d) && user == Output(Filled(l, types, d, list))
    && Records(l, types, d, list, user) && (user == [] <==> list == [])
    && (user == Exact(l, types, d, list) <==> AllClean(l, types, d, list))
    && (|user| < l.BufSize() ==> user == Exact(l, types, d, list))
  }

  /** What a reader makes of the bytes: walking from record to record it sees the slots
      in use from i on up to those from j on, which are as many as fit. */
  ghost predicate Portion(l: Layout, types: nat -> Byte, d: Directory, i: nat, size: nat, user: Bytes, j: nat)
    requires 0 < l.align
  {
    exists list :: Slots(d, list)
      && d.InUse(i) == list + d.InUse(j) && Parse(l, user) == Entries(EntriesOf(types, d, list))
      && (list != [] ==> |user| < size)
      && (d.InUse(j) != [] ==> |user| + l.RecLen(NameLen(d.slots[d.InUse(j)[0]].name)) >= size)
  }

  lemma PortionIs(l: Layout, types: nat -> Byte, d: Directory, i: nat, size: nat, user: Bytes, list: seq<nat>, stop: Stop)
    requires l.Sane() && d.Valid() && Slots(d, list) && Delivered(l, types, d, list, user)
    requires (list, stop) == Listed(l, d, i, 0, size) && (list != [] ==> |user| < size)
    requires stop.At? && stop.slot < |d.slots| ==> |user| + l.RecLen(NameLen(d.slots[stop.slot].name)) >= size
    ensures Portion(l, types, d, i, size, user, if stop.At? then stop.slot else d.size / DIR_ENTRY_SIZE)
  {
    hide Layout.RecLen, NameLen, Listed, Directory.InUse, Parse, Records, Layout.Sane, Directory.Valid, Delivered, Splits;
    SaneAlign(l);
    ListedSplits(l, d, i, 0, size);
    DeliveredParse(l, types, d, list, user);
    if stop.At? {
      SplitsAt(l, d, i, size, list, stop.slot);
    } else {
      ProgressEnd(l, d, i, size, list);
      NothingFromEnd(d);
    }
  }

  lemma SplitsAt(l: Layout, d: Directory, i: nat, size: nat, list: seq<nat>, slot: nat)
    requires 0 < l.align && Splits(l, d, i, 0, size, list, At(slot))
    ensures d.InUse(i) == list + d.InUse(slot) && slot < |d.slots| && d.InUse(slot) != [] && d.InUse(slot)[0] == slot
  {
    hide Layout.RecLen, NameLen;
  }

  lemma NothingFromEnd(d: Directory)
    requires d.Valid()
    ensures d.InUse(d.size / DIR_ENTRY_SIZE) == []
  {
    hide Directory.InUse;
    NothingFrom(d, d.size / DIR_ENTRY_SIZE);
  }

  lemma DeliveredParse(l: Layout, types: nat -> Byte, d: Directory, list: seq<nat>, user: Bytes)
    requires l.Sane() && Slots(d, list) && Delivered(l, types, d, list, user)
    ensures 0 < l.align && Parse(l, user) == Entries(EntriesOf(types, d, list))
  {
    hide Parse, Records, Exact, AllClean, Filled, Output;
    ParseRecords(l, types, d, list, user);
  }

  /** One getdents request. types gives the type of an inode. */
  method FsGetdents(l: Layout, types: nat -> Byte, d: Directory, pos: nat, size: nat)
    returns (r: int, user: Bytes, newPos: nat)
    requires l.Sane() && d.Valid()
    ensures pos % DIR_ENTRY_SIZE != 0 ==> r == ENOENT
    ensures pos % DIR_ENTRY_SIZE == 0 ==>
              var (list, stop) := Listed(l, d, pos / DIR_ENTRY_SIZE, 0, size);
              if stop.At? && list == [] then r == EINVAL
              else
                && r == OK && Delivered(l, types, d, list, user)
                && newPos == if stop.At? then DIR_ENTRY_SIZE * stop.slot else d.size
    // The same, seen by the caller.
    ensures pos % DIR_ENTRY_SIZE == 0 && r == OK ==>
              newPos % DIR_ENTRY_SIZE == 0 && Portion(l, types, d, pos / DIR_ENTRY_SIZE, size, user, newPos / DIR_ENTRY_SIZE)
    ensures pos % DIR_ENTRY_SIZE == 0 ==>
              var rest := d.InUse(pos / DIR_ENTRY_SIZE);
              && (r == OK || r == EINVAL)
              && (r == EINVAL <==> rest != [] && l.RecLen(NameLen(d.slots[rest[0]].name)) >= size)
  {
    hide Layout.RecLen, Layout.BufSize, NameLen, OnCourse, UnderWay, Directory.Valid, Named, Filled, Delivered, Listed,
         Portion, Directory.InUse;
    ValidNames(d);
    user, newPos := [], 0;
    ghost var list: seq<nat>, stop := [], End;
    if pos % DIR_ENTRY_SIZE != 0 {
      return ENOENT, user, newPos;
    }
    var i0 := pos / DIR_ENTRY_SIZE;
    FirstBlock(d, i0);
    // block and dp: slot numbers, of the block's first slot and within the block
    var dp: nat := i0 % d.perBlock;
    var block: nat := i0 - dp;
    var buf, done := Zeros(l.BufSize()), false;
    var tmpOff: nat := 0;
    newPos := d.size;
    SetOut(l, types, d, i0, size, buf);
    while DIR_ENTRY_SIZE * block < d.size
      invariant newPos == d.size && stop == End && !done && dp < d.perBlock
      invariant UnderWay(l, types, d, i0, size, user, buf, tmpOff, list, block + dp)
      invariant WholeBlocks(d, block)
      decreases |d.slots| - block
    {
      BlockInside(d, block);
      user, buf, tmpOff, done, newPos, list, stop :=
        SearchBlock(l, types, d, i0, size, block, dp, user, buf, tmpOff, newPos, list);
      if done {
        break;
      }
      block, dp := block + d.perBlock, 0;
    }
    if !done {
      PastBlocks(d, block);
      Arrived(l, types, d, i0, size, user, buf, tmpOff, list, block + dp, End);
    }
    assert user + buf[..0] == user;
    PutOutAll(l, types, d, list);
    if tmpOff != 0 {
      user := user + buf[..tmpOff];
    }
    SomethingOut(l, types, d, list);
    ToCaller(l, types, d, i0, size, user, list, stop);
    r := if done && user == [] then EINVAL else OK;
  }

  // The slots of one block, from dp0 on.
  method SearchBlock(l: Layout, types: nat -> Byte, d: Directory, ghost i0: nat, size: nat, block: nat, dp0: nat,
                     user0: Bytes, buf0: Bytes, tmpOff0: nat, newPos0: nat, ghost list0: seq<nat>)
    returns (user: Bytes, buf: Bytes, tmpOff: nat, done: bool, newPos: nat, ghost list: seq<nat>, ghost stop: Stop)
    requires l.Sane() && Named(d) && dp0 <= d.perBlock && block + d.perBlock <= |d.slots|
    requires UnderWay(l, types, d, i0, size, user0, buf0, tmpOff0, list0, block + dp0)
    ensures !done ==> UnderWay(l, types, d, i0, size, user, buf, tmpOff, list, block + d.perBlock)
                      && newPos == newPos0 && stop == End
    ensures done ==> stop.At? && newPos == DIR_ENTRY_SIZE * stop.slot && Closed(l, types, d, i0, size, user, buf, tmpOff, list, stop)
  {
    hide Layout.RecLen, Layout.BufSize, NameLen, OnCourse, UnderWay, Closed, Named;
    user, buf, tmpOff, done, newPos, list, stop := user0, buf0, tmpOff0, false, newPos0, list0, End;
    var dp := dp0;
    while dp < d.perBlock
      invariant dp <= d.perBlock
      invariant UnderWay(l, types, d, i0, size, user, buf, tmpOff, list, block + dp)
    {
      var e := d.slots[block + dp];
      if e.ino != 0 {
        if |user| + tmpOff + l.RecLen(NameLen(e.name)) >= size {
          done := true;
          newPos := DIR_ENTRY_SIZE * (block + dp);
          stop := At(block + dp);
          Arrived(l, types, d, i0, size, user, buf, tmpOff, list, block + dp, stop);
          return;
        }
        user, buf, tmpOff := TakeEntry(l, types, d, i0, size, user, buf, tmpOff, list, block + dp);
        list := list + [block + dp];
      } else {
        SkipEntry(l, types, d, i0, size, user, buf, tmpOff, list, block + dp);
      }
      dp := dp + 1;
    }
  }

  // Everything has been listed but for what is in the temporary buffer.
  ghost predicate Closed(l: Layout, types: nat -> Byte, d: Directory, i0: nat, size: nat,
                         user: Bytes, buf: Bytes, tmpOff: nat, list: seq<nat>, stop: Stop)
    requires l.Sane() && Named(d)
  {
    && (list, stop) == Listed(l, d, i0, 0, size)
    && Slots(d, list) && Buffer(user, buf, tmpOff) == Filled(l, types, d, list)
    && (list != [] ==> |user| + tmpOff < size)
    && (stop.At? && stop.slot < |d.slots| ==> |user| + tmpOff + l.RecLen(NameLen(d.slots[stop.slot].name)) >= size)
  }

  lemma ValidNames(d: Directory)
    requires d.Valid()
    ensures Named(d)
  {
  }

  lemma PutOutAll(l: Layout, types: nat -> Byte, d: Directory, list: seq<nat>)
    requires l.Sane() && Named(d) && Slots(d, list)
    ensures Delivered(l, types, d, list, Output(Filled(l, types, d, list)))
  {
    hide Layout.BufSize, Output, Filled, Records, Exact, AllClean, Layout.Sane, Named, Slots;
    FilledRecords(l, types, d, list);
    ExactIffClean(l, types, d, list);
    if |Output(Filled(l, types, d, list))| < l.BufSize() { CleanAtFirst(l, types, d, list); }
  }

  lemma SomethingOut(l: Layout, types: nat -> Byte, d: Directory, list: seq<nat>)
    requires l.Sane() && Named(d) && Slots(d, list)
    ensures Output(Filled(l, types, d, list)) == [] <==> list == []
  {
    FilledRecords(l, types, d, list);
  }

  lemma ToCaller(l: Layout, types: nat -> Byte, d: Directory, i: nat, size: nat, user: Bytes, list: seq<nat>, stop: Stop)
    requires l.Sane() && d.Valid() && Slots(d, list) && Delivered(l, types, d, list, user)
    requires (list, stop) == Listed(l, d, i, 0, size) && (list != [] ==> |user| < size)
    requires stop.At? && stop.slot < |d.slots| ==> |user| + l.RecLen(NameLen(d.slots[stop.slot].name)) >= size
    ensures var newPos := if stop.At? then DIR_ENTRY_SIZE * stop.slot else d.size;
            newPos % DIR_ENTRY_SIZE == 0 && Portion(l, types, d, i, size, user, newPos / DIR_ENTRY_SIZE)
    ensures stop.At? && list == [] <==>
              d.InUse(i) != [] && l.RecLen(NameLen(d.slots[d.InUse(i)[0]].name)) >= size
  {
    hide Layout.RecLen, NameLen, Listed, Directory.InUse, Portion, Layout.Sane, Directory.Valid, Delivered, Splits;
    SaneAlign(l);
    PortionIs(l, types, d, i, size, user, list, stop);
    ListedSplits(l, d, i, 0, size);
    ListedFit(l, d, i, 0, size);
    if stop.At? {
      SlotOf(stop.slot);
      SplitsAt(l, d, i, size, list, stop.slot);
      SplitsLong(l, d, i, size, list, stop.slot);
      assert list == [] ==> list + d.InUse(stop.slot) == d.InUse(stop.slot);
    } else {
      SizeInSlots(d);
      ProgressEnd(l, d, i, size, list);
    }
    if list != [] { assert d.InUse(i)[0] == list[0] && list[0] in list; }
  }

  lemma SplitsLong(l: Layout, d: Directory, i: nat, size: nat, list: seq<nat>, slot: nat)
    requires 0 < l.align && Splits(l, d, i, 0, size, list, At(slot))
    ensures slot < |d.slots| && (list == [] ==> l.RecLen(NameLen(d.slots[slot].name)) >= size)
  {
    hide Layout.RecLen, NameLen;
  }

  // From block on there are whole blocks, and they are the blocks below the size.
  ghost predicate WholeBlocks(d: Directory, block: nat)
    requires d.Valid()
  {
    block < |d.slots| ==> (|d.slots| - block) % d.perBlock == 0
  }

  lemma FirstBlock(d: Directory, i: nat)
    requires d.Valid()
    ensures 0 < d.perBlock && 0 <= i % d.perBlock < d.perBlock && i - i % d.perBlock >= 0
    ensures WholeBlocks(d, i - i % d.perBlock)
  {
    BlockStart(i, |d.slots|, d.perBlock);
  }

  lemma BlockInside(d: Directory, block: nat)
    requires d.Valid() && DIR_ENTRY_SIZE * block < d.size && WholeBlocks(d, block)
    ensures block + d.perBlock <= |d.slots| && WholeBlocks(d, block + d.perBlock)
  {
    BlockFits(|d.slots| - block, d.perBlock);
  }

  lemma PastBlocks(d: Directory, block: nat)
    requires d.Valid() && DIR_ENTRY_SIZE * block >= d.size && WholeBlocks(d, block)
    ensures block >= |d.slots|
  {
    if block < |d.slots| { BlockFits(|d.slots| - block, d.perBlock); }
  }

  lemma SetOut(l: Layout, types: nat -> Byte, d: Directory, i0: nat, size: nat, buf: Bytes)
    requires l.Sane() && Named(d) && buf == Zeros(l.BufSize())
    ensures UnderWay(l, types, d, i0, size, [], buf, 0, [], i0)
  {
    hide Layout.RecLen, Layout.BufSize;
    assert [] + Listed(l, d, i0, 0, size).0 == Listed(l, d, i0, 0, size).0;
  }

  lemma SkipEntry(l: Layout, types: nat -> Byte, d: Directory, i0: nat, size: nat,
                  user: Bytes, buf: Bytes, tmpOff: nat, list: seq<nat>, i: nat)
    requires l.Sane() && Named(d) && UnderWay(l, types, d, i0, size, user, buf, tmpOff, list, i)
    requires i < |d.slots| && d.slots[i].ino == 0
    ensures UnderWay(l, types, d, i0, size, user, buf, tmpOff, list, i + 1)
  {
    hide Filled, OnCourse, Layout.BufSize;
    OnCourseSkip(l, d, i0, size, list, i, |user| + tmpOff);
  }

  // The end of the loops: of the directory, or of the user's space.
  lemma Arrived(l: Layout, types: nat -> Byte, d: Directory, i0: nat, size: nat,
                user: Bytes, buf: Bytes, tmpOff: nat, list: seq<nat>, i: nat, stop: Stop)
    requires l.Sane() && Named(d) && UnderWay(l, types, d, i0, size, user, buf, tmpOff, list, i)
    requires match stop
             case End => i >= |d.slots|
             case At(k) => k == i < |d.slots| && d.slots[i].ino != 0
                           && |user| + tmpOff + l.RecLen(NameLen(d.slots[i].name)) >= size
    ensures Closed(l, types, d, i0, size, user, buf, tmpOff, list, stop)
  {
    hide Filled, Layout.RecLen, NameLen, Layout.BufSize;
    assert list + [] == list;
  }

  /** --- Reading a whole directory --- */

  lemma {:induction false} ListedFit(l: Layout, d: Directory, i: nat, used: nat, size: nat)
    requires 0 < l.align
    ensures forall k | k in Listed(l, d, i, used, size).0 :: k < |d.slots| && l.RecLen(NameLen(d.slots[k].name)) < size
    decreases |d.slots| - i
  {
    hide Layout.RecLen, NameLen;
    if i < |d.slots| {
      if d.slots[i].ino == 0 {
        ListedFit(l, d, i + 1, used, size);
      } else {
        ListedFit(l, d, i + 1, used + l.RecLen(NameLen(d.slots[i].name)), size);
      }
    }
  }

  lemma {:induction false} NothingFrom(d: Directory, i: nat)
    requires forall k :: i <= k < |d.slots| ==> d.slots[k].ino == 0
    ensures d.InUse(i) == []
    decreases |d.slots| - i
  {
    if i < |d.slots| { NothingFrom(d, i + 1); }
  }

  lemma {:induction false} InUseAscends(d: Directory, i: nat)
    ensures forall j, k :: 0 <= j < k < |d.InUse(i)| ==> d.InUse(i)[j] < d.InUse(i)[k]
    decreases |d.slots| - i
  {
    if i < |d.slots| { InUseAscends(d, i + 1); }
  }

  // Every slot in use is there once, in order.
  lemma InUseIsAll(d: Directory, k: nat)
    requires k < |d.slots|
    ensures multiset(d.InUse(0))[k] == if d.slots[k].ino != 0 then 1 else 0
  {
    InUseAscends(d, 0);
    if d.slots[k].ino != 0 { InUseHas(d, 0, k); }
    Once(d.InUse(0), k);
  }

  lemma {:induction false} Once(s: seq<nat>, x: nat)
    requires forall j, k :: 0 <= j < k < |s| ==> s[j] < s[k]
    ensures multiset(s)[x] == if x in s then 1 else 0
  {
    if s != [] {
      Once(s[1..], x);
      assert s == [s[0]] + s[1..];
    }
  }

  lemma {:induction false} InUseHas(d: Directory, i: nat, k: nat)
    requires i <= k < |d.slots| && d.slots[k].ino != 0
    ensures k in d.InUse(i)
    decreases |d.slots| - i
  {
    if i < k { InUseHas(d, i + 1, k); }
  }

  ghost predicate Fits(l: Layout, d: Directory, size: nat, k: nat)
    requires 0 < l.align && k < |d.slots|
  {
    l.RecLen(NameLen(d.slots[k].name)) < size
  }

  // A call makes progress, or the directory is at its end, or the buffer is too
  // small for the next record.
  lemma CallProgress(l: Layout, d: Directory, i: nat, size: nat, newPos: nat)
    requires 0 < l.align && d.Valid()
    requires newPos == var stop := Listed(l, d, i, 0, size).1; if stop.At? then DIR_ENTRY_SIZE * stop.slot else d.size
    ensures var (list, stop) := Listed(l, d, i, 0, size);
            && newPos % DIR_ENTRY_SIZE == 0 && newPos / DIR_ENTRY_SIZE <= |d.slots|
            && d.InUse(i) == list + d.InUse(newPos / DIR_ENTRY_SIZE)
            && AllFitting(l, d, size, list)
            && (list != [] ==> i < newPos / DIR_ENTRY_SIZE)
            && (list == [] && stop == End ==> d.InUse(i) == [])
            && (list == [] && stop != End ==> stop.slot < |d.slots| && d.slots[stop.slot].ino != 0 && !Fits(l, d, size, stop.slot))
  {
    hide Layout.RecLen, NameLen, Listed, Directory.InUse, Splits;
    ListedSplits(l, d, i, 0, size);
    ListedFit(l, d, i, 0, size);
    var (list, stop) := Listed(l, d, i, 0, size);
    FitList(l, d, size, list);
    if stop.At? {
      ProgressAt(l, d, i, size, list, stop.slot);
    } else {
      ProgressEnd(l, d, i, size, list);
    }
  }

  lemma FitList(l: Layout, d: Directory, size: nat, list: seq<nat>)
    requires 0 < l.align && forall k | k in list :: k < |d.slots| && l.RecLen(NameLen(d.slots[k].name)) < size
    ensures AllFitting(l, d, size, list)
  {
    hide Layout.RecLen, NameLen;
    forall k | 0 <= k < |list| ensures list[k] < |d.slots| && Fits(l, d, size, list[k]) {
      assert list[k] in list;
    }
  }

  lemma ProgressAt(l: Layout, d: Directory, i: nat, size: nat, list: seq<nat>, slot: nat)
    requires 0 < l.align && Splits(l, d, i, 0, size, list, At(slot))
    ensures DIR_ENTRY_SIZE * slot % DIR_ENTRY_SIZE == 0 && DIR_ENTRY_SIZE * slot / DIR_ENTRY_SIZE == slot < |d.slots|
    ensures d.InUse(i) == list + d.InUse(slot) && d.slots[slot].ino != 0
    ensures if list == [] then !Fits(l, d, size, slot) else i < slot
  {
    hide Layout.RecLen, NameLen, Directory.InUse;
    SlotOf(slot);
  }

  lemma ProgressEnd(l: Layout, d: Directory, i: nat, size: nat, list: seq<nat>)
    requires 0 < l.align && d.Valid() && Splits(l, d, i, 0, size, list, End)
    ensures d.size % DIR_ENTRY_SIZE == 0 && d.size / DIR_ENTRY_SIZE <= |d.slots|
    ensures d.InUse(i) == list + d.InUse(d.size / DIR_ENTRY_SIZE) == list
    ensures list != [] ==> i < d.size / DIR_ENTRY_SIZE
  {
    hide Layout.RecLen, NameLen, Directory.InUse;
    NothingFrom(d, d.size / DIR_ENTRY_SIZE);
    SizeInSlots(d);
    if list != [] { assert list[0] == d.InUse(i)[0]; }
    assert list + [] == list;
  }

  lemma SlotOf(k: nat)
    ensures DIR_ENTRY_SIZE * k % DIR_ENTRY_SIZE == 0 && DIR_ENTRY_SIZE * k / DIR_ENTRY_SIZE == k
  {
  }

  lemma SizeInSlots(d: Directory)
    requires d.Valid()
    ensures d.size % DIR_ENTRY_SIZE == 0 && d.size / DIR_ENTRY_SIZE <= |d.slots|
    ensures forall k: nat :: k < |d.slots| && d.slots[k].ino != 0 ==> k < d.size / DIR_ENTRY_SIZE
  {
  }

  ghost predicate AllFitting(l: Layout, d: Directory, size: nat, list: seq<nat>)
    requires 0 < l.align
  {
    forall k :: 0 <= k < |list| ==> list[k] < |d.slots| && Fits(l, d, size, list[k])
  }

  /** Repeated requests, as readdir makes them: every slot in use once and in
      order, and never a failure, exactly when the buffer holds any one record
      with a byte to spare. */
  method ReadDirectory(l: Layout, types: nat -> Byte, d: Directory, size: nat)
    returns (r: int, out: Bytes)
    requires l.Sane() && d.Valid()
    ensures r == OK || r == EINVAL
    ensures r == OK <==> forall k :: 0 <= k < |d.slots| && d.slots[k].ino != 0 ==> Fits(l, d, size, k)
    ensures r == OK ==> Records(l, types, d, d.InUse(0), out)
    ensures r == OK ==> Slots(d, d.InUse(0)) && Parse(l, out) == Entries(EntriesOf(types, d, d.InUse(0)))
  {
    hide Layout.RecLen, Layout.BufSize, NameLen, Records, Directory.Valid, Fits, Listed, Delivered, Slots, Portion,
         Parse, Named;
    out := [];
    ghost var listed: seq<nat> := [];
    var pos: nat := 0;
    EmptyRecords(l, types, d);
    while true
      invariant pos % DIR_ENTRY_SIZE == 0 && pos / DIR_ENTRY_SIZE <= |d.slots|
      invariant listed + d.InUse(pos / DIR_ENTRY_SIZE) == d.InUse(0)
      invariant AllFitting(l, d, size, listed)
      invariant Records(l, types, d, listed, out)
      decreases |d.slots| - pos / DIR_ENTRY_SIZE
    {
      ghost var i := pos / DIR_ENTRY_SIZE;
      var user, newPos;
      r, user, newPos := FsGetdents(l, types, d, pos, size);
      ghost var (list, stop) := Listed(l, d, i, 0, size);
      CallProgress(l, d, i, size, if stop.At? then DIR_ENTRY_SIZE * stop.slot else d.size);
      if r != OK {
        return;
      }
      ListedSlots(d, list, i);
      DeliveredRecords(l, types, d, list, user);
      if |user| == 0 {
        AllFit(l, d, size, listed);
        AllInUse(d, listed);
        ValidNames(d);
        ParseRecords(l, types, d, listed, out);
        return;
      }
      RecordsJoin(l, types, d, listed, out, list, user);
      assert listed + (list + d.InUse(newPos / DIR_ENTRY_SIZE)) == (listed + list) + d.InUse(newPos / DIR_ENTRY_SIZE);
      listed, out, pos := listed + list, out + user, newPos;
    }
  }

  lemma DeliveredRecords(l: Layout, types: nat -> Byte, d: Directory, list: seq<nat>, user: Bytes)
    requires l.Sane() && Slots(d, list) && Delivered(l, types, d, list, user)
    ensures 0 < l.align && forall k :: 0 <= k < |list| ==> list[k] < |d.slots|
    ensures Records(l, types, d, list, user) && (user == [] <==> list == [])
  {
    hide Records, Exact, AllClean, Filled, Output;
  }

  lemma ListedSlots(d: Directory, list: seq<nat>, i: nat)
    requires forall k :: 0 <= k < |list| ==> i <= list[k] < |d.slots|
    ensures Slots(d, list)
  {
  }

  lemma EmptyRecords(l: Layout, types: nat -> Byte, d: Directory)
    requires 0 < l.align
    ensures Records(l, types, d, [], []) && [] + d.InUse(0) == d.InUse(0)
  {
  }

  lemma AllInUse(d: Directory, listed: seq<nat>)
    requires listed == d.InUse(0)
    ensures Slots(d, listed)
  {
  }

  lemma AllFit(l: Layout, d: Directory, size: nat, listed: seq<nat>)
    requires 0 < l.align && listed + [] == d.InUse(0) && AllFitting(l, d, size, listed)
    ensures listed == d.InUse(0) && forall k :: 0 <= k < |d.slots| && d.slots[k].ino != 0 ==> Fits(l, d, size, k)
  {
    hide Fits;
    assert listed + [] == listed;
    forall k | 0 <= k < |d.slots| && d.slots[k].ino != 0 ensures Fits(l, d, size, k) {
      InUseHas(d, 0, k);
      assert k in listed;
    }
  }
}
