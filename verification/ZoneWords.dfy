/** How zone numbers are stored in bytes: an indirect block and the i_zone
    area of an inode are both arrays of 32-bit little-endian words. */
module ZoneWords {

  type Byte = x: int | 0 <= x < 256
  type Zone = x: int | 0 <= x < 0x1_0000_0000

  const NO_ZONE: Zone := 0

  type Bytes = seq<Byte>

  function Zeros(n: nat): Bytes {
    seq(n, _ => 0)
  }

  // Word number i of the area b.
  function Word(b: Bytes, i: nat): Zone
    requires 4 * i + 4 <= |b|
  {
    var b0: int, b1: int, b2: int, b3: int := b[4 * i], b[4 * i + 1], b[4 * i + 2], b[4 * i + 3];
    b0 + 0x100 * b1 + 0x1_0000 * b2 + 0x100_0000 * b3
  }

  function PutWord(b: Bytes, i: nat, z: Zone): (r: Bytes)
    requires 4 * i + 4 <= |b|
    ensures |r| == |b|
  {
    b[4 * i := z % 0x100]
     [4 * i + 1 := z / 0x100 % 0x100]
     [4 * i + 2 := z / 0x1_0000 % 0x100]
     [4 * i + 3 := z / 0x100_0000]
  }

  // A stored zone number is read back unchanged, and no other word moves.
  lemma WordOfPut(b: Bytes, i: nat, z: Zone, j: nat)
    requires 4 * i + 4 <= |b| && 4 * j + 4 <= |b|
    ensures Word(PutWord(b, i, z), j) == if j == i then z else Word(b, j)
  {
    if j == i {
      assert z / 0x1_0000 == z / 0x100 / 0x100;
      assert z / 0x100_0000 == z / 0x100 / 0x100 / 0x100;
    }
  }

  lemma WordOfZeros(n: nat, i: nat)
    requires 4 * i + 4 <= n
    ensures Word(Zeros(n), i) == NO_ZONE
  {
  }

  // An area holds only NO_ZONE entries exactly when all its bytes are zero.
  lemma AllWordsZero(b: Bytes, n: nat)
    requires |b| == 4 * n
    ensures (forall i: nat | i < n :: Word(b, i) == NO_ZONE) <==> b == Zeros(4 * n)
  {
    if forall i: nat | i < n :: Word(b, i) == NO_ZONE {
      forall q | 0 <= q < |b| ensures b[q] == 0 {
        assert Word(b, q / 4) == NO_ZONE;
      }
    }
  }
}
