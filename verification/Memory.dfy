/**
  Memory as the vector functions see it: bytes at numeric addresses, some of which may be read.
  A load of anything else is a fault, so a function verified for every set of readable addresses
  that contains its arguments reads nothing but its arguments.
*/
module Memory {

  type Byte = bv8

  const ADDRESSES: int := 0x1_0000_0000_0000_0000

  /** Marks an address that a proof looks at. */
  predicate Addr(a: int) { true }

  class Ram {
    const bytes: array<Byte>
    ghost const readable: iset<nat>

    constructor (size: nat, ghost readable: iset<nat>)
      ensures fresh(bytes) && bytes.Length == size && this.readable == readable
    {
      bytes := new Byte[size](_ => 0);
      this.readable := readable;
    }

    ghost predicate Readable(lo: int, hi: int) {
      forall a {:trigger Addr(a)} :: Addr(a) && lo <= a < hi ==> 0 <= a && a in readable
    }

    /** Loads so many bytes. */
    method Load(p: nat, w: nat) returns (v: seq<Byte>)
      requires p + w <= bytes.Length && Readable(p, p + w)
      ensures v == bytes[p..p + w]
    {
      v := bytes[p..p + w];
    }

    /** Stores so many bytes; no other byte changes. */
    method Store(p: nat, v: seq<Byte>)
      requires p + |v| <= bytes.Length
      modifies bytes
      ensures forall a :: p <= a < p + |v| ==> bytes[a] == v[a - p]
      ensures forall a :: 0 <= a < bytes.Length && !(p <= a < p + |v|) ==> bytes[a] == old(bytes[a])
    {
      for i := 0 to |v|
        invariant forall a :: p <= a < p + i ==> bytes[a] == v[a - p]
        invariant forall a :: 0 <= a < bytes.Length && !(p <= a < p + i) ==> bytes[a] == old(bytes[a])
      {
        bytes[p + i] := v[i];
      }
    }

    /** A load, while copying, of bytes that have not been overwritten. */
    method LoadOld(p: nat, w: nat, ghost c: Copy, ghost lo: int, ghost hi: int) returns (v: seq<Byte>)
      requires p + w <= bytes.Length && Readable(p, p + w)
      requires Copied(bytes[..], c, lo, hi) && (p + w <= lo || hi <= p || lo == hi)
      ensures Belongs(v, c, p, w)
    {
      v := bytes[p..p + w];
      ghost var now := bytes[..];
      forall i | 0 <= i < w ensures v[i] == c.was[p + i] {
        assert Addr(p + i) && v[i] == now[p + i];
      }
    }

    /** A store that extends the first of two stretches. */
    method StoreGap(q: nat, v: seq<Byte>, w: nat, ghost c: Copy, ghost lo: int, ghost lo2: int, ghost hi: int)
      requires q + w <= hi && CopiedTwice(bytes[..], c, lo, q, lo2, hi) && Belongs(v, c, q + c.delta, w)
      modifies bytes
      ensures CopiedTwice(bytes[..], c, lo, q + w, lo2, hi)
    {
      ghost var before := bytes[..];
      Store(q, v);
      ghost var now := bytes[..];
      forall a | Addr(a) && 0 <= a < |now|
        ensures now[a] == if lo <= a < q + w || lo2 <= a < hi then c.was[a + c.delta] else c.was[a]
      {
        if q <= a < q + w {
          assert now[a] == v[a - q] == c.was[q + c.delta + (a - q)];
        } else {
          assert now[a] == before[a];
        }
      }
    }

    /** A store, while copying, of the bytes that belong there: with what has been copied before, from
        `lo` to `hi`, it makes a stretch from `lo2` to `hi2`. */
    method StoreCopy(q: nat, v: seq<Byte>, w: nat, ghost c: Copy, ghost lo: int, ghost hi: int, ghost lo2: int,
                     ghost hi2: int)
      requires q + w <= bytes.Length && Copied(bytes[..], c, lo, hi)
      requires q + c.delta >= 0 && Belongs(v, c, q + c.delta, w)
      requires Stretch(q, q + w, lo, hi, lo2, hi2)
      modifies bytes
      ensures Copied(bytes[..], c, lo2, hi2)
    {
      ghost var before := bytes[..];
      Store(q, v);
      ghost var now := bytes[..];
      forall a | Addr(a) && 0 <= a < |now| ensures now[a] == if lo2 <= a < hi2 then c.was[a + c.delta] else c.was[a] {
        if q <= a < q + w {
          assert now[a] == v[a - q] == c.was[q + c.delta + (a - q)];
        } else {
          assert now[a] == before[a];
        }
      }
    }
  }

  /** The same with two stretches, the first of which grows toward the second. */
  ghost predicate CopiedTwice(now: seq<Byte>, c: Copy, lo: int, mid: int, lo2: int, hi: int) {
    && |now| == |c.was| && 0 <= lo <= mid <= hi && lo <= lo2 <= hi <= |now| && 0 <= lo + c.delta &&
        hi + c.delta <= |now|
    && forall a {:trigger Addr(a)} :: Addr(a) && 0 <= a < |now| ==>
         now[a] == if lo <= a < mid || lo2 <= a < hi then c.was[a + c.delta] else c.was[a]
  }

  lemma Meet(now: seq<Byte>, c: Copy, lo: int, mid: int, lo2: int, hi: int)
    ensures CopiedTwice(now, c, lo, mid, lo2, hi) && lo2 <= mid ==> Copied(now, c, lo, hi)
    ensures Copied(now, c, lo2, hi) && 0 <= lo <= lo2 && 0 <= lo + c.delta && hi + c.delta <= |now| ==>
              CopiedTwice(now, c, lo, lo, lo2, hi)
  {
  }

  /** A copy in the making: what memory held before it, and how far above the destination the source
      lies. */
  datatype Copy = Copy(was: seq<Byte>, delta: int)

  /** Memory is what it was, but that the bytes from `lo` to `hi` are those that lay above them. */
  ghost predicate Copied(now: seq<Byte>, c: Copy, lo: int, hi: int) {
    && |now| == |c.was| && 0 <= lo <= hi <= |now|
    && (lo < hi ==> 0 <= lo + c.delta && hi + c.delta <= |now|)
    && forall a {:trigger Addr(a)} :: Addr(a) && 0 <= a < |now| ==>
         now[a] == if lo <= a < hi then c.was[a + c.delta] else c.was[a]
  }

  /** These bytes lay at that address. */
  ghost predicate Belongs(v: seq<Byte>, c: Copy, p: int, w: int) {
    0 <= p && |v| == w && p + w <= |c.was| && v == c.was[p..p + w]
  }

  /** Two stretches that meet or overlap, and the one they make; an empty one adds nothing. */
  predicate Stretch(q: int, e: int, lo: int, hi: int, lo2: int, hi2: int) {
    if lo == hi then lo2 == q && hi2 == e
    else q <= hi && lo <= e && lo2 == (if q < lo then q else lo) && hi2 == (if hi < e then e else hi)
  }
}
