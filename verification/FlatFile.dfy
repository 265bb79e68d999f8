/** What reading and writing mean for a file that is just a sequence of bytes. */
module FlatFile {
  import opened ZoneWords

  // d written at p; a gap between the end of s and p is filled with zeros.
  function FlatWrite(s: Bytes, p: nat, d: Bytes): (r: Bytes)
    ensures |r| == if p + |d| > |s| then p + |d| else |s|
  {
    seq(if p + |d| > |s| then p + |d| else |s|, (i: nat) =>
      if p <= i < p + |d| then d[i - p] else if i < |s| then s[i] else 0)
  }

  // Byte q, zero past the end.
  function FlatByte(s: Bytes, q: nat): Byte {
    if q < |s| then s[q] else 0
  }

  // At most n bytes from position p on.
  function FlatRead(s: Bytes, p: nat, n: nat): Bytes {
    if p >= |s| then [] else if p + n > |s| then s[p..] else s[p..p + n]
  }

  lemma ReadBack(s: Bytes, p: nat, d: Bytes)
    ensures d != [] ==> FlatRead(FlatWrite(s, p, d), p, |d|) == d
  {
  }

  // A write in two parts is the write of the whole.
  lemma WriteSplit(s: Bytes, p: nat, d: Bytes, e: Bytes)
    ensures FlatWrite(FlatWrite(s, p, d), p + |d|, e) == FlatWrite(s, p, d + e)
  {
  }

  // A write of no bytes leaves the file alone exactly when it is not past the end.
  lemma EmptyWrite(s: Bytes, p: nat)
    ensures FlatWrite(s, p, []) == s <==> p <= |s|
  {
    if p <= |s| { assert FlatWrite(s, p, []) == s; }
  }

  // The answer to a read of an immediate file is the whole file: right exactly
  // for reads that start at 0 and ask for all of it.
  lemma WholeFileRead(s: Bytes, p: nat, n: nat)
    requires p < |s|
    ensures s == FlatRead(s, p, n) <==> p == 0 && |s| <= n
  {
  }
}
