/**
  Words of eight bytes, the lowest byte first: what counting the trailing zeros of a word says about
  its bytes, and how a zero byte is found among the eight at once.
*/
module Words {
  import opened Memory

  function Join8(a: Byte, b: Byte, c: Byte, d: Byte, e: Byte, f: Byte, g: Byte, h: Byte): bv64 {
    (a as bv64) | (b as bv64 << 8) | (c as bv64 << 16) | (d as bv64 << 24)
    | (e as bv64 << 32) | (f as bv64 << 40) | (g as bv64 << 48) | (h as bv64 << 56)
  }

  /** The word that lies in memory as these bytes. */
  function Word(v: seq<Byte>): bv64
    requires |v| == 8
  {
    Join8(v[0], v[1], v[2], v[3], v[4], v[5], v[6], v[7])
  }

  /** The number of zero bits below the lowest one of eight bits. */
  function LowBit(x: bv64): (r: nat)
    ensures r < 8
  {
    if x & 1 != 0 then 0 else if x & 2 != 0 then 1 else if x & 4 != 0 then 2 else if x & 8 != 0 then 3
    else if x & 16 != 0 then 4 else if x & 32 != 0 then 5 else if x & 64 != 0 then 6 else 7
  }

  /** The number of zero bits below the lowest one (`__builtin_ctzll`). */
  function TrailingZeros(x: bv64): nat
    requires x != 0
  {
    if x & 0xff != 0 then LowBit(x & 0xff)
    else if (x >> 8) & 0xff != 0 then 8 + LowBit((x >> 8) & 0xff)
    else if (x >> 16) & 0xff != 0 then 16 + LowBit((x >> 16) & 0xff)
    else if (x >> 24) & 0xff != 0 then 24 + LowBit((x >> 24) & 0xff)
    else if (x >> 32) & 0xff != 0 then 32 + LowBit((x >> 32) & 0xff)
    else if (x >> 40) & 0xff != 0 then 40 + LowBit((x >> 40) & 0xff)
    else if (x >> 48) & 0xff != 0 then 48 + LowBit((x >> 48) & 0xff)
    else 56 + LowBit((x >> 56) & 0xff)
  }

  /** The word whose bytes are these: each byte lies where it should. */
  predicate IsWord(x: bv64, v: seq<Byte>)
    requires |v| == 8
  {
    && x & 0xff == v[0] as bv64
    && (x >> 8) & 0xff == v[1] as bv64
    && (x >> 16) & 0xff == v[2] as bv64
    && (x >> 24) & 0xff == v[3] as bv64
    && (x >> 32) & 0xff == v[4] as bv64
    && (x >> 40) & 0xff == v[5] as bv64
    && (x >> 48) & 0xff == v[6] as bv64
    && (x >> 56) & 0xff == v[7] as bv64
  }

  lemma Octets(v: seq<Byte>, x: bv64)
    requires |v| == 8 && x == Word(v)
    ensures IsWord(x, v)
  {
    Joined(x, v[0], v[1], v[2], v[3], v[4], v[5], v[6], v[7]);
  }

  lemma Joined(x: bv64, a: Byte, b: Byte, c: Byte, d: Byte, e: Byte, f: Byte, g: Byte, h: Byte)
    requires x == Join8(a, b, c, d, e, f, g, h)
    ensures x & 0xff == a as bv64 && (x >> 8) & 0xff == b as bv64
    ensures (x >> 16) & 0xff == c as bv64 && (x >> 24) & 0xff == d as bv64
    ensures (x >> 32) & 0xff == e as bv64 && (x >> 40) & 0xff == f as bv64
    ensures (x >> 48) & 0xff == g as bv64 && (x >> 56) & 0xff == h as bv64
  {
  }

  /** The bytes of the bits in which two words differ. */
  lemma Differing(x: bv64, y: bv64, z: bv64)
    requires z == x ^ y
    ensures z & 0xff == 0 <==> x & 0xff == y & 0xff
    ensures (z >> 8) & 0xff == 0 <==> (x >> 8) & 0xff == (y >> 8) & 0xff
    ensures (z >> 16) & 0xff == 0 <==> (x >> 16) & 0xff == (y >> 16) & 0xff
    ensures (z >> 24) & 0xff == 0 <==> (x >> 24) & 0xff == (y >> 24) & 0xff
    ensures (z >> 32) & 0xff == 0 <==> (x >> 32) & 0xff == (y >> 32) & 0xff
    ensures (z >> 40) & 0xff == 0 <==> (x >> 40) & 0xff == (y >> 40) & 0xff
    ensures (z >> 48) & 0xff == 0 <==> (x >> 48) & 0xff == (y >> 48) & 0xff
    ensures (z >> 56) & 0xff == 0 <==> (x >> 56) & 0xff == (y >> 56) & 0xff
    ensures z == 0 <==> x == y
  {
  }

  lemma SameByte(x: bv64, y: bv64, a: Byte, b: Byte)
    requires x == a as bv64 && y == b as bv64
    ensures x == y <==> a == b
  {
  }

  /** The bytes of this word are zero where these are the same. */
  predicate Marks(z: bv64, a: seq<Byte>, b: seq<Byte>)
    requires |a| == |b| == 8
  {
    && (z & 0xff == 0 <==> a[0] == b[0])
    && ((z >> 8) & 0xff == 0 <==> a[1] == b[1])
    && ((z >> 16) & 0xff == 0 <==> a[2] == b[2])
    && ((z >> 24) & 0xff == 0 <==> a[3] == b[3])
    && ((z >> 32) & 0xff == 0 <==> a[4] == b[4])
    && ((z >> 40) & 0xff == 0 <==> a[5] == b[5])
    && ((z >> 48) & 0xff == 0 <==> a[6] == b[6])
    && ((z >> 56) & 0xff == 0 <==> a[7] == b[7])
  }

  /** The bytes of the bits in which two words differ are zero where the bytes are the same. */
  lemma DifferingBytes(a: seq<Byte>, b: seq<Byte>, x: bv64, y: bv64, z: bv64)
    requires |a| == |b| == 8 && IsWord(x, a) && IsWord(y, b) && z == x ^ y
    ensures Marks(z, a, b)
    ensures z == 0 <==> x == y
  {
    Differing(x, y, z);
    SameByte(x & 0xff, y & 0xff, a[0], b[0]);
    SameByte((x >> 8) & 0xff, (y >> 8) & 0xff, a[1], b[1]);
    SameByte((x >> 16) & 0xff, (y >> 16) & 0xff, a[2], b[2]);
    SameByte((x >> 24) & 0xff, (y >> 24) & 0xff, a[3], b[3]);
    SameByte((x >> 32) & 0xff, (y >> 32) & 0xff, a[4], b[4]);
    SameByte((x >> 40) & 0xff, (y >> 40) & 0xff, a[5], b[5]);
    SameByte((x >> 48) & 0xff, (y >> 48) & 0xff, a[6], b[6]);
    SameByte((x >> 56) & 0xff, (y >> 56) & 0xff, a[7], b[7]);
  }

  /** The byte in which the lowest one lies: the first that is not zero. */
  lemma ByteOfLowest(z: bv64, i: nat)
    requires z != 0 && i == TrailingZeros(z) / 8
    ensures i < 8
    ensures i == 0 <==> z & 0xff != 0
    ensures i > 1 ==> (z >> 8) & 0xff == 0
    ensures i > 2 ==> (z >> 16) & 0xff == 0
    ensures i > 3 ==> (z >> 24) & 0xff == 0
    ensures i > 4 ==> (z >> 32) & 0xff == 0
    ensures i > 5 ==> (z >> 40) & 0xff == 0
    ensures i > 6 ==> (z >> 48) & 0xff == 0
    ensures i == 1 ==> (z >> 8) & 0xff != 0
    ensures i == 2 ==> (z >> 16) & 0xff != 0
    ensures i == 3 ==> (z >> 24) & 0xff != 0
    ensures i == 4 ==> (z >> 32) & 0xff != 0
    ensures i == 5 ==> (z >> 40) & 0xff != 0
    ensures i == 6 ==> (z >> 48) & 0xff != 0
    ensures i == 7 ==> (z >> 56) & 0xff != 0
  {
  }

  /** Two words differ when their bytes do, and the trailing zeros of the bits in which they differ,
      divided by eight, are the number of bytes before the first that differs. */
  lemma FirstDifference(a: seq<Byte>, b: seq<Byte>, x: bv64, y: bv64)
    requires |a| == |b| == 8 && IsWord(x, a) && IsWord(y, b)
    ensures x == y <==> a == b
    ensures x != y ==> x ^ y != 0 && FirstAt(a, b, TrailingZeros(x ^ y) / 8)
  {
    var z := x ^ y;
    DifferingBytes(a, b, x, y, z);
    if x != y {
      FirstSet(a, b, z);
    } else {
      assert a == b;
    }
  }

  lemma FirstSet(a: seq<Byte>, b: seq<Byte>, z: bv64)
    requires z != 0 && |a| == |b| == 8
    requires Marks(z, a, b)
    ensures FirstAt(a, b, TrailingZeros(z) / 8)
  {
    ByteOfLowest(z, TrailingZeros(z) / 8);
  }

  /** That is where the two first differ. */
  predicate FirstAt(a: seq<Byte>, b: seq<Byte>, i: nat)
    requires |a| == |b|
  {
    i < |a| && a[i] != b[i] && forall j :: 0 <= j < i ==> a[j] == b[j]
  }

  const ONES: bv64 := 0x0101_0101_0101_0101
  const HIGHS: bv64 := 0x8080_8080_8080_8080

  /** `HASZERO`. */
  function HasZero(x: bv64): bv64 {
    (x - ONES) & !x & HIGHS
  }

  /** Up to the first zero byte, `HasZero` marks that byte and no other; what it says of the bytes
      above may be wrong. */
  lemma ZeroMarks(x: bv64, h: bv64)
    requires h == (x - 0x0101_0101_0101_0101) & !x & 0x8080_8080_8080_8080
    ensures (h & 0xff != 0 <==> x & 0xff == 0)
    ensures (x & 0xff) != 0 ==> ((h >> 8) & 0xff != 0 <==> (x >> 8) & 0xff == 0)
    ensures (x & 0xff) != 0 && ((x >> 8) & 0xff) != 0 ==> ((h >> 16) & 0xff != 0 <==> (x >> 16) & 0xff == 0)
    ensures (x & 0xff) != 0 && ((x >> 8) & 0xff) != 0 && ((x >> 16) & 0xff) != 0 ==>
      ((h >> 24) & 0xff != 0 <==> (x >> 24) & 0xff == 0)
    ensures (x & 0xff) != 0 && ((x >> 8) & 0xff) != 0 && ((x >> 16) & 0xff) != 0 && ((x >> 24) & 0xff) != 0 ==>
      ((h >> 32) & 0xff != 0 <==> (x >> 32) & 0xff == 0)
    ensures ((x & 0xff) != 0 && ((x >> 8) & 0xff) != 0 && ((x >> 16) & 0xff) != 0 && ((x >> 24) & 0xff) != 0
             && ((x >> 32) & 0xff) != 0) ==>
      ((h >> 40) & 0xff != 0 <==> (x >> 40) & 0xff == 0)
    ensures ((x & 0xff) != 0 && ((x >> 8) & 0xff) != 0 && ((x >> 16) & 0xff) != 0 && ((x >> 24) & 0xff) != 0
             && ((x >> 32) & 0xff) != 0 && ((x >> 40) & 0xff) != 0) ==>
      ((h >> 48) & 0xff != 0 <==> (x >> 48) & 0xff == 0)
    ensures ((x & 0xff) != 0 && ((x >> 8) & 0xff) != 0 && ((x >> 16) & 0xff) != 0 && ((x >> 24) & 0xff) != 0
             && ((x >> 32) & 0xff) != 0 && ((x >> 40) & 0xff) != 0 && ((x >> 48) & 0xff) != 0) ==>
      ((h >> 56) & 0xff != 0 <==> (x >> 56) & 0xff == 0)
  {
  }

  /** The same, of the bytes of the word. */
  predicate MarksZero(h: bv64, v: seq<Byte>)
    requires |v| == 8
  {
    && ((h & 0xff != 0 <==> v[0] == 0))
    && (v[0] != 0 ==> ((h >> 8) & 0xff != 0 <==> v[1] == 0))
    && (v[0] != 0 && v[1] != 0 ==> ((h >> 16) & 0xff != 0 <==> v[2] == 0))
    && (v[0] != 0 && v[1] != 0 && v[2] != 0 ==> ((h >> 24) & 0xff != 0 <==> v[3] == 0))
    && (v[0] != 0 && v[1] != 0 && v[2] != 0 && v[3] != 0 ==> ((h >> 32) & 0xff != 0 <==> v[4] == 0))
    && (v[0] != 0 && v[1] != 0 && v[2] != 0 && v[3] != 0 && v[4] != 0 ==> ((h >> 40) & 0xff != 0 <==> v[5] == 0))
    && (v[0] != 0 && v[1] != 0 && v[2] != 0 && v[3] != 0 && v[4] != 0 && v[5] != 0 ==>
          ((h >> 48) & 0xff != 0 <==> v[6] == 0))
    && (v[0] != 0 && v[1] != 0 && v[2] != 0 && v[3] != 0 && v[4] != 0 && v[5] != 0 && v[6] != 0 ==>
          ((h >> 56) & 0xff != 0 <==> v[7] == 0))
  }

  lemma ByteIsZero(x: bv64, b: Byte)
    requires x == b as bv64
    ensures x == 0 <==> b == 0
  {
  }

  /** The bytes of this word are zero where these are. */
  predicate Zeroes(x: bv64, v: seq<Byte>)
    requires |v| == 8
  {
    && (x & 0xff == 0 <==> v[0] == 0)
    && ((x >> 8) & 0xff == 0 <==> v[1] == 0)
    && ((x >> 16) & 0xff == 0 <==> v[2] == 0)
    && ((x >> 24) & 0xff == 0 <==> v[3] == 0)
    && ((x >> 32) & 0xff == 0 <==> v[4] == 0)
    && ((x >> 40) & 0xff == 0 <==> v[5] == 0)
    && ((x >> 48) & 0xff == 0 <==> v[6] == 0)
    && ((x >> 56) & 0xff == 0 <==> v[7] == 0)
  }

  lemma WordZeroes(x: bv64, v: seq<Byte>)
    requires |v| == 8 && IsWord(x, v)
    ensures Zeroes(x, v)
  {
    ByteIsZero(x & 0xff, v[0]);
    ByteIsZero((x >> 8) & 0xff, v[1]);
    ByteIsZero((x >> 16) & 0xff, v[2]);
    ByteIsZero((x >> 24) & 0xff, v[3]);
    ByteIsZero((x >> 32) & 0xff, v[4]);
    ByteIsZero((x >> 40) & 0xff, v[5]);
    ByteIsZero((x >> 48) & 0xff, v[6]);
    ByteIsZero((x >> 56) & 0xff, v[7]);
  }

  lemma ZeroMarked(v: seq<Byte>, x: bv64, h: bv64)
    requires |v| == 8 && Zeroes(x, v) && h == (x - 0x0101_0101_0101_0101) & !x & 0x8080_8080_8080_8080
    ensures MarksZero(h, v)
  {
    ZeroMarks(x, h);
  }

  /** The bytes of a word. */
  function Bytes(x: bv64): (v: seq<Byte>)
    ensures |v| == 8 && IsWord(x, v)
  {
    [LowByte(x), LowByte(x >> 8), LowByte(x >> 16), LowByte(x >> 24),
     LowByte(x >> 32), LowByte(x >> 40), LowByte(x >> 48), LowByte(x >> 56)]
  }

  function LowByte(x: bv64): (b: Byte)
    ensures x & 0xff == b as bv64
  {
    (x & 0xff) as Byte
  }

  /** This is the first byte that is zero. */
  predicate ZeroAt(v: seq<Byte>, i: nat) {
    i < |v| && v[i] == 0 && forall j :: 0 <= j < i ==> v[j] != 0
  }

  lemma FirstZero(v: seq<Byte>, h: bv64)
    requires |v| == 8 && MarksZero(h, v) && h != 0
    ensures ZeroAt(v, TrailingZeros(h) / 8)
  {
    ByteOfLowest(h, TrailingZeros(h) / 8);
  }

  lemma NoZero(v: seq<Byte>, h: bv64)
    requires |v| == 8 && MarksZero(h, v) && h == 0
    ensures forall i :: 0 <= i < 8 ==> v[i] != 0
  {
    ZeroHasNoBytes(h);
  }

  lemma ZeroHasNoBytes(h: bv64)
    requires h == 0
    ensures h & 0xff == 0 && (h >> 8) & 0xff == 0 && (h >> 16) & 0xff == 0 && (h >> 24) & 0xff == 0
    ensures (h >> 32) & 0xff == 0 && (h >> 40) & 0xff == 0 && (h >> 48) & 0xff == 0 && (h >> 56) & 0xff == 0
  {
  }

  /** `HASZERO` is not zero exactly when some byte is, and its trailing zeros, divided by eight, are
      the number of bytes before the first that is. */
  lemma HasZeroTells(v: seq<Byte>, x: bv64)
    requires |v| == 8 && Zeroes(x, v)
    ensures HasZero(x) != 0 <==> exists i :: 0 <= i < 8 && v[i] == 0
    ensures HasZero(x) != 0 ==> ZeroAt(v, TrailingZeros(HasZero(x)) / 8)
  {
    var h := HasZero(x);
    ZeroMarked(v, x, h);
    if h == 0 {
      NoZero(v, h);
    } else {
      FirstZero(v, h);
    }
  }

  /** The same of every word. */
  lemma EveryWord(x: bv64)
    ensures HasZero(x) != 0 <==> exists i :: 0 <= i < 8 && Bytes(x)[i] == 0
    ensures HasZero(x) != 0 ==> ZeroAt(Bytes(x), TrailingZeros(HasZero(x)) / 8)
  {
    WordZeroes(x, Bytes(x));
    HasZeroTells(Bytes(x), x);
  }
}
