/** What a directory listing puts out: records, and the temporary buffer they go
    through. */
module Dirents {
  import opened Arithmetic
  import opened ZoneWords

  const DIR_ENTRY_SIZE: nat := 64
  const MFS_NAME_MAX: nat := 60
  const GETDENTS_ENTRIES: nat := 8

  // A slot of a directory; not in use if ino is 0.
  datatype Direct = Direct(ino: Ino, name: Bytes)

  // A file number, as a directory holds it.
  type Ino = x: int | 0 <= x < 0x1_0000_0000

  /** The shape of struct dirent: its size and alignment, the bytes before d_name, given
      d_fileno, d_reclen, d_namlen and d_type, and what these fields of given bytes are.
      The alignment is a power of two, d_name has room for every name and a NUL, and the
      record lengths fit the 16 bits of d_reclen. */
  datatype Layout = Layout(size: nat, align: nat, headLen: nat, head: (Ino, nat, nat, Byte) -> Bytes,
                           fileno: Bytes -> nat, reclen: Bytes -> nat, namlen: Bytes -> nat, kind: Bytes -> nat) {
    ghost predicate Sane() {
      && 0 < align <= size && PowerOfTwo(align) && headLen + MFS_NAME_MAX + 1 <= size
      && headLen + MFS_NAME_MAX + 1 + align <= 0x1_0000
      && (forall f, r, n, t :: |head(f, r, n, t)| == headLen)
      && (forall f, r, n, t | r < 0x1_0000 && n < 0x1_0000 ::
            var h := head(f, r, n, t); fileno(h) == f && reclen(h) == r && namlen(h) == n && kind(h) == t)
    }

    function BufSize(): nat {
      (size + MFS_NAME_MAX + 1) * GETDENTS_ENTRIES
    }

    // _DIRENT_RECLEN: head, name and NUL, rounded up to the alignment.
    function RecLen(len: nat): (r: nat)
      requires 0 < align
      ensures headLen + len + 1 <= r < headLen + len + 1 + align && r % align == 0
    {
      var x := headLen + len + 1;
      assert (x + (align - x % align)) % align == 0 by { RoundedUp(x, align); }
      if x % align == 0 then x else x + (align - x % align)
    }
  }

  predicate PowerOfTwo(n: nat) {
    n == 1 || (n > 1 && n % 2 == 0 && PowerOfTwo(n / 2))
  }

  lemma RoundedUp(x: nat, n: nat)
    requires 0 < n
    ensures (x + (n - x % n)) % n == 0
  {
    var q := x / n;
    assert x == n * q + x % n;
    Distribute(n, q);
    DivModOf(q + 1, n, 0);
  }

  // The length of a name: up to its first NUL, if it has one.
  function NameLen(name: Bytes): (n: nat)
    ensures n <= |name| && (forall i :: 0 <= i < n ==> name[i] != 0) && (n < |name| ==> name[n] == 0)
  {
    if name == [] || name[0] == 0 then 0 else 1 + NameLen(name[1..])
  }

  /** A directory: its slots, block by block, and its size. A block holds perBlock
      slots; those past the size are not in use. */
  datatype Directory = Directory(slots: seq<Direct>, size: nat, perBlock: nat) {
    ghost predicate Valid() {
      && 0 < perBlock && |slots| % perBlock == 0 && size % DIR_ENTRY_SIZE == 0
      && size <= DIR_ENTRY_SIZE * |slots| && (slots != [] ==> DIR_ENTRY_SIZE * (|slots| - perBlock) < size)
      && (forall i :: 0 <= i < |slots| ==> |slots[i].name| == MFS_NAME_MAX)
      && (forall i :: size / DIR_ENTRY_SIZE <= i < |slots| ==> slots[i].ino == 0)
    }

    // The slots in use from i on.
    function InUse(i: nat): (s: seq<nat>)
      ensures forall k :: 0 <= k < |s| ==> i <= s[k] < |slots| && slots[s[k]].ino != 0
      decreases |slots| - i
    {
      if i >= |slots| then [] else if slots[i].ino == 0 then InUse(i + 1) else [i] + InUse(i + 1)
    }
  }

  /** --- What is put out --- */

  // The bytes of a record that mean something: all but the padding at its end.
  function Meaning(l: Layout, types: nat -> Byte, e: Direct): Bytes
    requires 0 < l.align
  {
    var len := NameLen(e.name);
    l.head(e.ino, l.RecLen(len), len, types(e.ino)) + e.name[..len] + [0]
  }

  ghost predicate IsRecord(l: Layout, types: nat -> Byte, e: Direct, b: Bytes)
    requires 0 < l.align
  {
    |b| == l.RecLen(NameLen(e.name)) && Meaning(l, types, e) <= b
  }

  // out is one record for each of the listed slots, in their order.
  ghost predicate Records(l: Layout, types: nat -> Byte, d: Directory, list: seq<nat>, out: Bytes)
    requires 0 < l.align && forall k :: 0 <= k < |list| ==> list[k] < |d.slots|
  {
    if list == [] then out == []
    else
      var last := d.slots[list[|list| - 1]];
      var n := l.RecLen(NameLen(last.name));
      && n <= |out| && IsRecord(l, types, last, out[|out| - n..])
      && Records(l, types, d, list[..|list| - 1], out[..|out| - n])
  }

  /** --- Reading it --- */

  // What a reader sees of a record.
  datatype Entry = Entry(fileno: nat, kind: nat, name: Bytes)

  datatype Parsed = Garbled | Entries(entries: seq<Entry>)

  // At the front of b there is a record: a head, d_namlen bytes and a NUL within d_reclen.
  predicate Begins(l: Layout, b: Bytes)
    requires 0 < l.align
  {
    l.headLen <= |b| &&
    var r, n := l.reclen(b[..l.headLen]), l.namlen(b[..l.headLen]);
    l.headLen + n + 1 <= r <= |b| && r % l.align == 0 && b[l.headLen + n] == 0
  }

  function First(l: Layout, b: Bytes): Entry
    requires 0 < l.align && Begins(l, b)
  {
    var h := b[..l.headLen];
    Entry(l.fileno(h), l.kind(h), b[l.headLen..l.headLen + l.namlen(h)])
  }

  // A reader's walk over the bytes, from record to record by d_reclen.
  function Parse(l: Layout, b: Bytes): Parsed
    requires 0 < l.align
    decreases |b|
  {
    if b == [] then Entries([])
    else if !Begins(l, b) then Garbled
    else
      match Parse(l, b[l.reclen(b[..l.headLen])..])
      case Garbled => Garbled
      case Entries(rest) => Entries([First(l, b)] + rest)
  }

  function EntryOf(types: nat -> Byte, e: Direct): Entry {
    Entry(e.ino, types(e.ino), e.name[..NameLen(e.name)])
  }

  function EntriesOf(types: nat -> Byte, d: Directory, list: seq<nat>): (s: seq<Entry>)
    requires Slots(d, list)
    ensures |s| == |list| && forall k :: 0 <= k < |list| ==> s[k] == EntryOf(types, d.slots[list[k]])
  {
    seq(|list|, k requires 0 <= k < |list| => EntryOf(types, d.slots[list[k]]))
  }

  lemma ParseRecord(l: Layout, types: nat -> Byte, e: Direct, b: Bytes)
    requires l.Sane() && |e.name| == MFS_NAME_MAX && IsRecord(l, types, e, b)
    ensures Parse(l, b) == Entries([EntryOf(types, e)])
  {
    hide Layout.RecLen, NameLen, PowerOfTwo;
    var n := NameLen(e.name);
    var h := l.head(e.ino, l.RecLen(n), n, types(e.ino));
    var m := Meaning(l, types, e);
    assert m == h + e.name[..n] + [0];
    assert b[..|m|] == m;
    assert b[..l.headLen] == m[..l.headLen] == h;
    assert b[l.headLen..l.headLen + n] == m[l.headLen..l.headLen + n] == e.name[..n];
    assert b[l.headLen + n] == m[l.headLen + n] == 0;
    assert b[l.RecLen(n)..] == [];
    assert Parse(l, []) == Entries([]);
  }

  lemma BeginsJoin(l: Layout, x: Bytes, y: Bytes)
    requires 0 < l.align && Begins(l, x)
    ensures Begins(l, x + y) && First(l, x + y) == First(l, x) && l.headLen <= |x|
    ensures var r := l.reclen(x[..l.headLen]);
            0 < r <= |x| && l.reclen((x + y)[..l.headLen]) == r && (x + y)[r..] == x[r..] + y
  {
    var h := x[..l.headLen];
    assert (x + y)[..l.headLen] == h;
    var n := l.namlen(h);
    assert (x + y)[l.headLen..l.headLen + n] == x[l.headLen..l.headLen + n];
  }

  lemma ParseStep(l: Layout, b: Bytes)
    requires 0 < l.align
    ensures b == [] ==> Parse(l, b) == Entries([])
    ensures Parse(l, b).Entries? && b != [] ==> Begins(l, b)
    ensures b != [] && Begins(l, b) ==>
              && l.headLen <= |b| && l.reclen(b[..l.headLen]) <= |b|
              && var rest := Parse(l, b[l.reclen(b[..l.headLen])..]);
                 Parse(l, b) == if rest.Entries? then Entries([First(l, b)] + rest.entries) else Garbled
  {
    hide First;
  }

  lemma {:induction false} ParseJoin(l: Layout, x: Bytes, y: Bytes)
    requires 0 < l.align && Parse(l, x).Entries? && Parse(l, y).Entries?
    ensures Parse(l, x + y) == Entries(Parse(l, x).entries + Parse(l, y).entries)
    decreases |x|
  {
    hide Begins, First, Parse;
    ParseStep(l, x);
    ParseStep(l, x + y);
    if x == [] {
      assert x + y == y && Parse(l, y).entries == [] + Parse(l, y).entries;
    } else {
      BeginsJoin(l, x, y);
      var r := l.reclen(x[..l.headLen]);
      ParseJoin(l, x[r..], y);
      assert [First(l, x)] + (Parse(l, x[r..]).entries + Parse(l, y).entries)
          == ([First(l, x)] + Parse(l, x[r..]).entries) + Parse(l, y).entries;
    }
  }

  // The walk over the records visits exactly the listed slots, and ends at their end.
  lemma {:induction false} ParseRecords(l: Layout, types: nat -> Byte, d: Directory, list: seq<nat>, out: Bytes)
    requires l.Sane() && Named(d) && Slots(d, list) && Records(l, types, d, list, out)
    ensures Parse(l, out) == Entries(EntriesOf(types, d, list))
  {
    hide Layout.RecLen, NameLen, IsRecord, EntryOf, Parse, Layout.Sane;
    if list == [] {
      ParseNothing(l);
      assert EntriesOf(types, d, list) == [];
    } else {
      var e := d.slots[list[|list| - 1]];
      SaneAlign(l);
      var n := l.RecLen(NameLen(e.name));
      var before, last := out[..|out| - n], out[|out| - n..];
      ParseRecords(l, types, d, list[..|list| - 1], before);
      ParseRecord(l, types, e, last);
      ParseJoin(l, before, last);
      assert before + last == out;
      assert EntriesOf(types, d, list) == EntriesOf(types, d, list[..|list| - 1]) + [EntryOf(types, e)];
    }
  }

  lemma SaneAlign(l: Layout)
    requires l.Sane()
    ensures 0 < l.align
  {
  }

  lemma ParseNothing(l: Layout)
    requires l.Sane()
    ensures 0 < l.align && Parse(l, []) == Entries([])
  {
  }

  // A record fits into the empty temporary buffer.
  lemma OneFits(l: Layout, n: nat)
    requires l.Sane() && n <= MFS_NAME_MAX
    ensures 0 < l.align && 0 < l.RecLen(n) < l.BufSize()
  {
    hide PowerOfTwo;
  }

  predicate ZeroFrom(b: Bytes, k: nat) {
    forall i :: k <= i < |b| ==> b[i] == 0
  }

  // The records with zeros for padding.
  function Exact(l: Layout, types: nat -> Byte, d: Directory, list: seq<nat>): Bytes
    requires l.Sane() && forall k :: 0 <= k < |list| ==> list[k] < |d.slots|
  {
    if list == [] then [] else Exact(l, types, d, list[..|list| - 1]) + Padded(l, types, d.slots[list[|list| - 1]])
  }

  function Padded(l: Layout, types: nat -> Byte, e: Direct): Bytes
    requires l.Sane()
  {
    var m := Meaning(l, types, e);
    m + Zeros(l.RecLen(NameLen(e.name)) - |m|)
  }

  lemma LastRecord(l: Layout, types: nat -> Byte, d: Directory, list: seq<nat>, o: Bytes, o': Bytes)
    requires 0 < l.align && (forall k :: 0 <= k < |list| ==> list[k] < |d.slots|) && list != [] && Records(l, types, d, list[..|list| - 1], o)
    requires var e := d.slots[list[|list| - 1]];
             |o'| == |o| + l.RecLen(NameLen(e.name)) && o'[..|o|] == o && IsRecord(l, types, e, o'[|o|..])
    ensures Records(l, types, d, list, o')
  {
    hide Layout.RecLen, NameLen, IsRecord;
  }

  lemma {:induction false} RecordsJoin(l: Layout, types: nat -> Byte, d: Directory, a: seq<nat>, x: Bytes,
                                       b: seq<nat>, y: Bytes)
    requires 0 < l.align
    requires (forall k :: 0 <= k < |a| ==> a[k] < |d.slots|) && (forall k :: 0 <= k < |b| ==> b[k] < |d.slots|)
    requires Records(l, types, d, a, x) && Records(l, types, d, b, y)
    ensures Records(l, types, d, a + b, x + y)
    decreases |b|
  {
    hide Layout.RecLen, NameLen, IsRecord;
    if b == [] {
      assert a + b == a && x + y == x;
    } else {
      var e := d.slots[b[|b| - 1]];
      var n := l.RecLen(NameLen(e.name));
      var y0 := y[..|y| - n];
      RecordsJoin(l, types, d, a, x, b[..|b| - 1], y0);
      hide Records;
      assert (a + b)[..|a + b| - 1] == a + b[..|b| - 1];
      assert (x + y)[..|x + y0|] == x + y0 && (x + y)[|x + y0|..] == y[|y| - n..];
      LastRecord(l, types, d, a + b, x + y0, x + y);
    }
  }

  /** --- The temporary buffer, as a function --- */

  // What has been copied to the user, and the temporary buffer filled up to off.
  datatype Buffer = Buffer(user: Bytes, tmp: Bytes, off: nat)

  ghost predicate Sized(l: Layout, t: Buffer) {
    l.Sane() && |t.tmp| == l.BufSize() && t.off <= |t.tmp|
  }

  function Output(t: Buffer): Bytes
    requires t.off <= |t.tmp|
  {
    t.user + t.tmp[..t.off]
  }

  // Room for n more bytes: a buffer that would be full is copied out first.
  function Room(l: Layout, t: Buffer, n: nat): (t': Buffer)
    requires Sized(l, t)
    ensures Sized(l, t') && Output(t') == Output(t)
  {
    if t.off + n >= l.BufSize() then Buffer(Output(t), t.tmp, 0) else t
  }

  function Put(l: Layout, types: nat -> Byte, t: Buffer, e: Direct): (t': Buffer)
    requires Sized(l, t) && |e.name| == MFS_NAME_MAX
    ensures Sized(l, t')
  {
    var n, m := l.RecLen(NameLen(e.name)), Meaning(l, types, e);
    var r := Room(l, t, n);
    OneFits(l, NameLen(e.name));
    Buffer(r.user, r.tmp[..r.off] + m + r.tmp[r.off + |m|..], r.off + n)
  }

  // After the listed slots, from an empty buffer of zeros.
  function Filled(l: Layout, types: nat -> Byte, d: Directory, list: seq<nat>): (t: Buffer)
    requires l.Sane() && Named(d) && Slots(d, list)
    ensures Sized(l, t)
  {
    if list == [] then Buffer([], Zeros(l.BufSize()), 0)
    else Put(l, types, Filled(l, types, d, list[..|list| - 1]), d.slots[list[|list| - 1]])
  }

  ghost predicate Named(d: Directory) {
    forall i :: 0 <= i < |d.slots| ==> |d.slots[i].name| == MFS_NAME_MAX
  }

  ghost predicate Slots(d: Directory, list: seq<nat>) {
    forall k :: 0 <= k < |list| ==> list[k] < |d.slots|
  }

  // The buffer as earlier records left it is zero where the padding of e will be.
  ghost predicate Clean(l: Layout, types: nat -> Byte, t: Buffer, e: Direct)
    requires Sized(l, t)
  {
    var n, m := l.RecLen(NameLen(e.name)), |Meaning(l, types, e)|;
    var r := Room(l, t, n);
    forall j :: r.off + m <= j < r.off + n && j < |r.tmp| ==> r.tmp[j] == 0
  }

  // One more record is put out: with zeros for padding exactly if it is clean there.
  lemma PutOut(l: Layout, types: nat -> Byte, t: Buffer, e: Direct)
    requires Sized(l, t) && |e.name| == MFS_NAME_MAX
    ensures var n, o, o' := l.RecLen(NameLen(e.name)), Output(t), Output(Put(l, types, t, e));
            && |o'| == |o| + n && o'[..|o|] == o && IsRecord(l, types, e, o'[|o|..])
            && (o'[|o|..] == Padded(l, types, e) <==> Clean(l, types, t, e))
  {
    hide Layout.RecLen, Layout.BufSize, NameLen, Meaning, Layout.Sane, Room, Put, Output, Zeros;
    OneFits(l, NameLen(e.name));
    var n, m := l.RecLen(NameLen(e.name)), Meaning(l, types, e);
    var r := Room(l, t, n);
    PutRec(l, types, t, e);
    var rec := m + r.tmp[r.off + |m|..r.off + n];
    SamePadding(r.tmp, r.off, m, n);
    assert (Output(t) + rec)[..|Output(t)|] == Output(t) && (Output(t) + rec)[|Output(t)|..] == rec;
  }

  lemma RecordFits(l: Layout, types: nat -> Byte, t: Buffer, e: Direct)
    requires Sized(l, t) && |e.name| == MFS_NAME_MAX
    ensures var n := l.RecLen(NameLen(e.name));
            |Meaning(l, types, e)| <= n && Room(l, t, n).off + n <= |Room(l, t, n).tmp|
  {
    hide Layout.RecLen, Layout.BufSize, NameLen;
    OneFits(l, NameLen(e.name));
  }

  lemma PutRec(l: Layout, types: nat -> Byte, t: Buffer, e: Direct)
    requires Sized(l, t) && |e.name| == MFS_NAME_MAX
    ensures var n, m := l.RecLen(NameLen(e.name)), Meaning(l, types, e);
            var r := Room(l, t, n);
            && |m| <= n && r.off + n <= |r.tmp|
            && Output(Put(l, types, t, e)) == Output(t) + (m + r.tmp[r.off + |m|..r.off + n])
  {
    hide Layout.RecLen, Layout.BufSize, NameLen, Meaning, Layout.Sane, Room;
    OneFits(l, NameLen(e.name));
    var n, m := l.RecLen(NameLen(e.name)), Meaning(l, types, e);
    var r := Room(l, t, n);
    RecordFits(l, types, t, e);
    WrittenAt(r.tmp, r.off, m, n);
    assert r.user + (r.tmp[..r.off] + (m + r.tmp[r.off + |m|..r.off + n]))
        == (r.user + r.tmp[..r.off]) + (m + r.tmp[r.off + |m|..r.off + n]);
  }

  // Writing m into b at off, and then taking n bytes from there.
  lemma WrittenAt(b: Bytes, off: nat, m: Bytes, n: nat)
    requires |m| <= n && off + n <= |b|
    ensures (b[..off] + m + b[off + |m|..])[..off + n] == b[..off] + (m + b[off + |m|..off + n])
  {
  }

  lemma SamePadding(b: Bytes, off: nat, m: Bytes, n: nat)
    requires |m| <= n && off + n <= |b|
    ensures m + b[off + |m|..off + n] == m + Zeros(n - |m|) <==> forall j :: off + |m| <= j < off + n ==> b[j] == 0
  {
    var rec, padded := m + b[off + |m|..off + n], m + Zeros(n - |m|);
    assert forall j :: |m| <= j < n ==> rec[j] == b[off + j] && padded[j] == 0;
    if rec == padded {
      forall j | off + |m| <= j < off + n ensures b[j] == 0 {
        assert rec[j - off] == padded[j - off];
      }
    }
  }

  lemma {:induction false} FilledRecords(l: Layout, types: nat -> Byte, d: Directory, list: seq<nat>)
    requires l.Sane() && Named(d) && Slots(d, list)
    ensures Records(l, types, d, list, Output(Filled(l, types, d, list)))
    ensures Output(Filled(l, types, d, list)) == [] <==> list == []
  {
    if list != [] {
      var before, e := list[..|list| - 1], d.slots[list[|list| - 1]];
      OneFits(l, NameLen(e.name));
      hide Layout.RecLen, NameLen, Meaning, Put, Layout.Sane, Output, IsRecord, Layout.BufSize;
      FilledRecords(l, types, d, before);
      var t := Filled(l, types, d, before);
      PutOut(l, types, t, e);
      LastRecord(l, types, d, list, Output(t), Output(Put(l, types, t, e)));
    }
  }

  /** --- Padding, by the entries --- */

  // The length of the record of the kth listed slot.
  function Length(l: Layout, d: Directory, list: seq<nat>, k: nat): nat
    requires 0 < l.align && Slots(d, list) && k < |list|
  {
    l.RecLen(NameLen(d.slots[list[k]].name))
  }

  // How far k records fill the temporary buffer.
  function Level(l: Layout, d: Directory, list: seq<nat>, k: nat): nat
    requires 0 < l.align && Slots(d, list) && k <= |list|
    decreases k, 0
  {
    if k == 0 then 0 else Begin(l, d, list, k - 1) + Length(l, d, list, k - 1)
  }

  // Where in the buffer the kth record begins.
  function Begin(l: Layout, d: Directory, list: seq<nat>, k: nat): nat
    requires 0 < l.align && Slots(d, list) && k < |list|
    decreases k, 1
  {
    if Level(l, d, list, k) + Length(l, d, list, k) >= l.BufSize() then 0 else Level(l, d, list, k)
  }

  // What the kth record has to say covers position x of the buffer.
  predicate Covers(l: Layout, types: nat -> Byte, d: Directory, list: seq<nat>, k: nat, x: nat)
    requires 0 < l.align && Slots(d, list) && k < |list|
  {
    Begin(l, d, list, k) <= x < Begin(l, d, list, k) + |Meaning(l, types, d.slots[list[k]])|
  }

  // Record j is the last of the first k that covers x.
  ghost predicate LastAt(l: Layout, types: nat -> Byte, d: Directory, list: seq<nat>, k: nat, x: nat, j: nat)
    requires 0 < l.align && Slots(d, list) && k <= |list|
  {
    j < k && Covers(l, types, d, list, j, x) && forall i :: j < i < k ==> !Covers(l, types, d, list, i, x)
  }

  // The last of the first k records that covers x has zero there, or none covers it.
  ghost predicate ZeroBy(l: Layout, types: nat -> Byte, d: Directory, list: seq<nat>, k: nat, x: nat)
    requires 0 < l.align && Slots(d, list) && k <= |list|
  {
    forall j: nat :: LastAt(l, types, d, list, k, x, j) ==> Meaning(l, types, d.slots[list[j]])[x - Begin(l, d, list, j)] == 0
  }

  // So it is wherever the kth record has its padding.
  ghost predicate PadsZero(l: Layout, types: nat -> Byte, d: Directory, list: seq<nat>, k: nat)
    requires 0 < l.align && Slots(d, list) && k < |list|
  {
    var b := Begin(l, d, list, k);
    forall x: nat :: b + |Meaning(l, types, d.slots[list[k]])| <= x < b + Length(l, d, list, k) ==>
      ZeroBy(l, types, d, list, k, x)
  }

  ghost predicate AllClean(l: Layout, types: nat -> Byte, d: Directory, list: seq<nat>)
    requires 0 < l.align && Slots(d, list)
  {
    forall k :: 0 <= k < |list| ==> PadsZero(l, types, d, list, k)
  }

  lemma ZeroByNext(l: Layout, types: nat -> Byte, d: Directory, list: seq<nat>, k: nat, x: nat)
    requires 0 < l.align && Slots(d, list) && k < |list|
    ensures if Covers(l, types, d, list, k, x)
            then ZeroBy(l, types, d, list, k + 1, x) <==>
                   Meaning(l, types, d.slots[list[k]])[x - Begin(l, d, list, k)] == 0
            else ZeroBy(l, types, d, list, k + 1, x) <==> ZeroBy(l, types, d, list, k, x)
  {
    hide Begin, Meaning, Length, Level;
    if Covers(l, types, d, list, k, x) {
      assert LastAt(l, types, d, list, k + 1, x, k);
    } else {
      forall j ensures LastAt(l, types, d, list, k + 1, x, j) <==> LastAt(l, types, d, list, k, x, j) { }
    }
  }

  // A byte of the buffer after one more record.
  lemma PutByte(l: Layout, types: nat -> Byte, t: Buffer, e: Direct, x: nat)
    requires Sized(l, t) && |e.name| == MFS_NAME_MAX && x < |t.tmp|
    ensures var t', m, n := Put(l, types, t, e), Meaning(l, types, e), l.RecLen(NameLen(e.name));
            var begin := if t.off + n >= l.BufSize() then 0 else t.off;
            && t'.off == begin + n && |t'.tmp| == |t.tmp|
            && t'.tmp[x] == if begin <= x < begin + |m| then m[x - begin] else t.tmp[x]
  {
    OneFits(l, NameLen(e.name));
    hide Layout.RecLen, Layout.BufSize, NameLen, Layout.Sane;
  }

  // The buffer is zero at x as the entries say.
  lemma {:induction false} FilledByte(l: Layout, types: nat -> Byte, d: Directory, list: seq<nat>, k: nat, x: nat)
    requires l.Sane() && Named(d) && Slots(d, list) && k <= |list| && x < l.BufSize()
    ensures var t := Filled(l, types, d, list[..k]);
            t.off == Level(l, d, list, k) && |t.tmp| == l.BufSize() && (t.tmp[x] == 0 <==> ZeroBy(l, types, d, list, k, x))
    decreases k
  {
    hide Layout.RecLen, Layout.BufSize, NameLen, Meaning, Put, Layout.Sane, ZeroBy, Sized;
    if k > 0 {
      FilledByte(l, types, d, list, k - 1, x);
      assert list[..k][..k - 1] == list[..k - 1];
      FilledSized(l, types, d, list[..k - 1]);
      PutByte(l, types, Filled(l, types, d, list[..k - 1]), d.slots[list[k - 1]], x);
      ZeroByNext(l, types, d, list, k - 1, x);
    } else {
      NoneYet(l, types, d, list, x);
    }
  }

  lemma FilledSized(l: Layout, types: nat -> Byte, d: Directory, list: seq<nat>)
    requires l.Sane() && Named(d) && Slots(d, list)
    ensures 0 < l.align && 0 < l.BufSize()
    ensures Sized(l, Filled(l, types, d, list)) && |Filled(l, types, d, list).tmp| == l.BufSize()
  {
  }

  lemma NoneYet(l: Layout, types: nat -> Byte, d: Directory, list: seq<nat>, x: nat)
    requires l.Sane() && Slots(d, list)
    ensures ZeroBy(l, types, d, list, 0, x)
  {
    hide Meaning, Begin;
  }

  lemma CleanMeans(l: Layout, types: nat -> Byte, t: Buffer, e: Direct)
    requires Sized(l, t) && |e.name| == MFS_NAME_MAX
    ensures var m, n := |Meaning(l, types, e)|, l.RecLen(NameLen(e.name));
            var begin := if t.off + n >= l.BufSize() then 0 else t.off;
            && begin + n <= l.BufSize() == |t.tmp|
            && (Clean(l, types, t, e) <==> forall x: nat :: begin + m <= x < begin + n ==> t.tmp[x] == 0)
  {
    hide Layout.RecLen, Layout.BufSize, NameLen, Meaning, Layout.Sane;
    OneFits(l, NameLen(e.name));
    var n := l.RecLen(NameLen(e.name));
    var r := Room(l, t, n);
    assert r.tmp == t.tmp && r.off == if t.off + n >= l.BufSize() then 0 else t.off;
  }

  lemma CleanByEntries(l: Layout, types: nat -> Byte, d: Directory, list: seq<nat>, k: nat)
    requires l.Sane() && Named(d) && Slots(d, list) && k < |list|
    ensures Sized(l, Filled(l, types, d, list[..k]))
    ensures Clean(l, types, Filled(l, types, d, list[..k]), d.slots[list[k]]) <==> PadsZero(l, types, d, list, k)
  {
    hide Layout.RecLen, Layout.BufSize, NameLen, Meaning, Layout.Sane, Filled, ZeroBy, Sized, Level, Clean, Named, Room, Put;
    var t, e := Filled(l, types, d, list[..k]), d.slots[list[k]];
    FilledSized(l, types, d, list[..k]);
    NameIs(d, list, k);
    FilledByte(l, types, d, list, k, 0);
    CleanMeans(l, types, t, e);
    forall x: nat | x < |t.tmp| ensures t.tmp[x] == 0 <==> ZeroBy(l, types, d, list, k, x) {
      FilledByte(l, types, d, list, k, x);
    }
  }

  lemma NameIs(d: Directory, list: seq<nat>, k: nat)
    requires Named(d) && Slots(d, list) && k < |list|
    ensures |d.slots[list[k]].name| == MFS_NAME_MAX
  {
  }

  lemma EqualParts(o': Bytes, n: nat, x: Bytes, p: Bytes)
    requires n == |x| <= |o'|
    ensures o' == x + p <==> o'[..n] == x && o'[n..] == p
  {
    assert o' == o'[..n] + o'[n..];
    assert (x + p)[..n] == x && (x + p)[n..] == p;
  }

  lemma {:induction false} ExactTo(l: Layout, types: nat -> Byte, d: Directory, list: seq<nat>, k: nat)
    requires l.Sane() && Named(d) && Slots(d, list) && k <= |list|
    ensures |Output(Filled(l, types, d, list[..k]))| == |Exact(l, types, d, list[..k])|
    ensures Output(Filled(l, types, d, list[..k])) == Exact(l, types, d, list[..k])
       <==> forall i :: 0 <= i < k ==> PadsZero(l, types, d, list, i)
    decreases k
  {
    hide Layout.RecLen, NameLen, Meaning, Put, Layout.Sane, Clean, Padded, PadsZero, Output;
    if k > 0 {
      var t, e := Filled(l, types, d, list[..k - 1]), d.slots[list[k - 1]];
      assert list[..k][..k - 1] == list[..k - 1];
      ExactTo(l, types, d, list, k - 1);
      PutOut(l, types, t, e);
      PaddedLen(l, types, e);
      CleanByEntries(l, types, d, list, k - 1);
      EqualParts(Output(Put(l, types, t, e)), |Output(t)|, Exact(l, types, d, list[..k - 1]), Padded(l, types, e));
    } else {
      NothingOut(l, types, d);
    }
  }

  lemma NothingOut(l: Layout, types: nat -> Byte, d: Directory)
    requires l.Sane() && Named(d)
    ensures Output(Filled(l, types, d, [])) == []
  {
  }

  /** The records put out have zeros for padding exactly if wherever a record has its
      padding the last earlier one with something to say there said zero, or none had. */
  lemma ExactIffClean(l: Layout, types: nat -> Byte, d: Directory, list: seq<nat>)
    requires l.Sane() && Named(d) && Slots(d, list)
    ensures |Output(Filled(l, types, d, list))| == |Exact(l, types, d, list)|
    ensures Output(Filled(l, types, d, list)) == Exact(l, types, d, list) <==> AllClean(l, types, d, list)
  {
    hide Layout.Sane, Filled, Exact, Output, PadsZero;
    assert list[..|list|] == list;
    ExactTo(l, types, d, list, |list|);
  }

  lemma PaddedLen(l: Layout, types: nat -> Byte, e: Direct)
    requires l.Sane()
    ensures |Padded(l, types, e)| == l.RecLen(NameLen(e.name))
  {
    hide Layout.RecLen, NameLen;
  }

  // Nothing has been copied out yet, so there is nothing to be seen.
  lemma {:induction false} CleanAtFirst(l: Layout, types: nat -> Byte, d: Directory, list: seq<nat>)
    requires l.Sane() && Named(d) && Slots(d, list) && |Output(Filled(l, types, d, list))| < l.BufSize()
    ensures Output(Filled(l, types, d, list)) == Exact(l, types, d, list)
    ensures Filled(l, types, d, list).user == []
    ensures ZeroFrom(Filled(l, types, d, list).tmp, Filled(l, types, d, list).off)
  {
    if list != [] {
      var before, e := list[..|list| - 1], d.slots[list[|list| - 1]];
      OneFits(l, NameLen(e.name));
      hide Layout.RecLen, Layout.BufSize, NameLen, Meaning, Layout.Sane, Padded, IsRecord;
      var t := Filled(l, types, d, before);
      PutOut(l, types, t, e);
      CleanAtFirst(l, types, d, before);
      PutClean(l, types, t, e);
      var o, o' := Output(t), Output(Put(l, types, t, e));
      hide Put, Filled, Output;
      assert o' == o + o'[|o|..];
    }
  }

  // Nothing is copied out, and the rest of the buffer is still zero.
  lemma PutClean(l: Layout, types: nat -> Byte, t: Buffer, e: Direct)
    requires Sized(l, t) && |e.name| == MFS_NAME_MAX && t.user == [] && ZeroFrom(t.tmp, t.off)
    requires |Output(Put(l, types, t, e))| < l.BufSize()
    ensures var t' := Put(l, types, t, e); t'.user == [] && ZeroFrom(t'.tmp, t'.off) && Clean(l, types, t, e)
  {
    OneFits(l, NameLen(e.name));
    hide Layout.RecLen, Layout.BufSize, NameLen, Meaning, Layout.Sane;
  }

  /** --- Listings that show stale bytes --- */

  // 58 names of 60 bytes and then one of 55.
  ghost predicate LongThenShort(d: Directory, list: seq<nat>) {
    && Slots(d, list) && |list| == 59 && Named(d)
    && forall k :: 0 <= k < 59 ==> NameLen(d.slots[list[k]].name) == if k < 58 then 60 else 55
  }

  // A struct dirent of 528 bytes, aligned to 8, whose name begins at byte 13.
  ghost predicate Wide(l: Layout) {
    l.Sane() && l.size == 528 && l.align == 8 && l.headLen == 13
  }

  // Such a layout, with its fields as little-endian words of 8, 2, 2 and 1 bytes.
  function Words(): Layout {
    Layout(528, 8, 13, (f, r, n, t) => HeadBytes(f, r, n, t),
           b => if |b| == 13 then Short(b[0], b[1]) + 0x1_0000 * Short(b[2], b[3]) else 0,
           b => if |b| == 13 then Short(b[8], b[9]) else 0,
           b => if |b| == 13 then Short(b[10], b[11]) else 0,
           b => if |b| == 13 then b[12] else 0)
  }

  function Short(low: nat, high: nat): nat {
    low + 0x100 * high
  }

  function HeadBytes(f: Ino, r: nat, n: nat, t: Byte): (b: Bytes)
    ensures |b| == 13
  {
    var low, high := f % 0x1_0000, f / 0x1_0000;
    [low % 0x100, low / 0x100, high % 0x100, high / 0x100, 0, 0, 0, 0,
     r % 0x100, r / 0x100 % 0x100, n % 0x100, n / 0x100 % 0x100, t]
  }

  lemma WordsAreWide()
    ensures Wide(Words())
  {
    var l := Words();
    assert PowerOfTwo(8) by { assert PowerOfTwo(1) && PowerOfTwo(2) && PowerOfTwo(4); }
    forall f: Ino, r, n, t | r < 0x1_0000 && n < 0x1_0000
      ensures var h := l.head(f, r, n, t); l.fileno(h) == f && l.reclen(h) == r && l.namlen(h) == n && l.kind(h) == t
    {
      ReadBackShort(f % 0x1_0000);
      ReadBackShort(f / 0x1_0000);
      ReadBackShort(r);
      ReadBackShort(n);
    }
  }

  lemma ReadBackShort(r: nat)
    requires r < 0x1_0000
    ensures r / 0x100 < 0x100 && r / 0x100 % 0x100 == r / 0x100 && Short(r % 0x100, r / 0x100) == r
  {
  }

  lemma WideSizes(l: Layout)
    requires Wide(l)
    ensures l.Sane() && l.RecLen(60) == 80 && l.RecLen(55) == 72 && l.BufSize() == 4712
  {
  }

  lemma WideMeaning(l: Layout, types: nat -> Byte, e: Direct)
    requires Wide(l)
    ensures var m, n := Meaning(l, types, e), NameLen(e.name);
            |m| == 14 + n && forall j :: 0 <= j < n ==> m[13 + j] == e.name[j]
  {
    hide NameLen, Layout.RecLen;
  }

  // Records of 80 bytes fill the temporary buffer of 4712 to 4640; the one of 72 does
  // not fit after them.
  lemma {:induction false} WideLevel(l: Layout, d: Directory, list: seq<nat>, k: nat)
    requires Wide(l) && LongThenShort(d, list) && k <= 58
    ensures && Level(l, d, list, k) == 80 * k && Length(l, d, list, k) == (if k < 58 then 80 else 72)
            && Begin(l, d, list, k) == if k < 58 then 80 * k else 0
    decreases k
  {
    hide NameLen, Layout.RecLen, Layout.BufSize;
    WideSizes(l);
    if k > 0 { WideLevel(l, d, list, k - 1); }
  }

  // Byte 70 of the buffer was last covered by the first name; it belongs to the padding
  // of the last one.
  lemma LastByFirst(l: Layout, types: nat -> Byte, d: Directory, list: seq<nat>)
    requires Wide(l) && LongThenShort(d, list)
    ensures LastAt(l, types, d, list, 58, 70, 0) && Begin(l, d, list, 0) == 0
  {
    hide NameLen, Layout.RecLen, Layout.BufSize, Level, Begin, Length, Meaning, Layout.Sane;
    WideSizes(l);
    WideLevel(l, d, list, 0);
    WideMeaning(l, types, d.slots[list[0]]);
    forall i | 0 < i < 58 ensures !Covers(l, types, d, list, i, 70) { WideLevel(l, d, list, i); }
  }

  lemma StaleByte(l: Layout, types: nat -> Byte, d: Directory, list: seq<nat>)
    requires Wide(l) && LongThenShort(d, list)
    ensures !PadsZero(l, types, d, list, 58)
  {
    hide NameLen, Layout.RecLen, Layout.BufSize, Level, Begin, Length, Meaning, Layout.Sane, LastAt;
    WideSizes(l);
    WideLevel(l, d, list, 58);
    WideMeaning(l, types, d.slots[list[58]]);
    WideMeaning(l, types, d.slots[list[0]]);
    LastByFirst(l, types, d, list);
    assert Meaning(l, types, d.slots[list[0]])[70] == d.slots[list[0]].name[57];
    assert !ZeroBy(l, types, d, list, 58, 70);
  }

  /** Every listing that begins so pads its last record with a byte of its first name. */
  lemma StaleListing(l: Layout, types: nat -> Byte, d: Directory, list: seq<nat>)
    requires Wide(l) && LongThenShort(d, list)
    ensures l.Sane() && Output(Filled(l, types, d, list)) != Exact(l, types, d, list)
  {
    hide Layout.Sane, Filled, Exact, Output, PadsZero, Named, Slots;
    WideSizes(l);
    StaleByte(l, types, d, list);
    ExactIffClean(l, types, d, list);
  }

  function NameOf(i: nat, n: nat): Bytes
    requires i < 100
  {
    seq(MFS_NAME_MAX, (j: nat) => if j == 0 then 100 + i else if j < n then 97 else 0)
  }

  function SlotOf(i: nat): Direct {
    if i < 58 then Direct(i + 1, NameOf(i, 60)) else if i == 58 then Direct(59, NameOf(58, 55))
    else Direct(0, Zeros(MFS_NAME_MAX))
  }

  // A directory of one block.
  function LongNames(): Directory {
    Directory(seq(64, (i: nat) => SlotOf(i)), 59 * DIR_ENTRY_SIZE, 64)
  }

  lemma NameLenIs(name: Bytes, n: nat)
    requires n <= |name| && (forall i :: 0 <= i < n ==> name[i] != 0) && (n < |name| ==> name[n] == 0)
    ensures NameLen(name) == n
  {
    hide NameLen;
  }

  lemma SlotIs(i: nat)
    requires i < 64
    ensures |LongNames().slots| == 64
    ensures var e := LongNames().slots[i];
            && (e.ino == 0 <==> i > 58) && |e.name| == MFS_NAME_MAX
            && (i < 59 ==> NameLen(e.name) == if i < 58 then 60 else 55)
  {
    hide NameLen;
    assert LongNames().slots[i] == SlotOf(i);
    if i < 59 { NameLenIs(SlotOf(i).name, if i < 58 then 60 else 55); }
  }

  function FirstSlots(n: nat, m: nat): seq<nat>
    requires n <= m
  {
    seq(m - n, i => n + i)
  }

  lemma {:induction false} LongNamesInUse(i: nat)
    requires i <= 64
    ensures LongNames().InUse(i) == if i < 59 then FirstSlots(i, 59) else []
    decreases 64 - i
  {
    hide SlotOf, LongNames, Directory.InUse;
    InUseStep(LongNames(), i);
    SlotIs(if i < 64 then i else 0);
    if i < 64 {
      LongNamesInUse(i + 1);
      assert i < 59 ==> FirstSlots(i, 59) == [i] + FirstSlots(i + 1, 59);
    }
  }

  lemma InUseStep(d: Directory, i: nat)
    ensures d.InUse(i) == if i >= |d.slots| then [] else if d.slots[i].ino == 0 then d.InUse(i + 1) else [i] + d.InUse(i + 1)
  {
  }

  /** There is such a directory. */
  lemma LongNamesStale(l: Layout, types: nat -> Byte)
    requires Wide(l)
    ensures var d := LongNames();
            && l.Sane() && d.Valid() && LongThenShort(d, d.InUse(0))
            && Output(Filled(l, types, d, d.InUse(0))) != Exact(l, types, d, d.InUse(0))
  {
    hide SlotOf, NameLen, Layout.Sane, Filled, Exact, Output, Directory.InUse;
    var d := LongNames();
    forall i | 0 <= i < 64 ensures |d.slots| == 64 && (d.slots[i].ino == 0 <==> i > 58) && |d.slots[i].name| == MFS_NAME_MAX
    { SlotIs(i); }
    forall i | 0 <= i < 59 ensures NameLen(d.slots[i].name) == if i < 58 then 60 else 55 { SlotIs(i); }
    LongNamesInUse(0);
    StaleListing(l, types, d, d.InUse(0));
  }
}
