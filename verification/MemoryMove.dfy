/**
  `memmove16` and what it is made of: every length, every way in which the two ranges may lie to
  one another.
*/
module MemoryMove {
  import opened Memory

  /** Both ranges lie in memory, and of all memory only the source need be readable. */
  ghost predicate Ranges(ram: Ram, d: nat, s: nat, n: nat) {
    d + n <= ram.bytes.Length && s + n <= ram.bytes.Length && ram.Readable(s, s + n)
  }

  /** Nothing has been copied yet, of what lies at `s` and is to be copied to `d`. */
  ghost predicate Begins(ram: Ram, d: nat, s: nat, c: Copy)
    reads ram.bytes
  {
    d <= ram.bytes.Length && c.delta == s - d && forall at :: 0 <= at <= ram.bytes.Length ==>
        Copied(ram.bytes[..], c, at, at)
  }

  /** The destination does not begin inside the source: a copy that goes forward is right. */
  predicate ForwardIsRight(d: nat, s: nat, n: nat) { d < s || s + n <= d || n == 0 }

  /** Two loads that may overlap, both before either store: right however the ranges lie. */
  method TwoEnds(ram: Ram, d: nat, s: nat, n: nat, w: nat, ghost c: Copy)
    requires Begins(ram, d, s, c) && Ranges(ram, d, s, n) && 0 < w <= n <= 2 * w
    modifies ram.bytes
    ensures Copied(ram.bytes[..], c, d, d + n)
  {
    var a := ram.LoadOld(s, w, c, d, d);
    var b := ram.LoadOld(s + n - w, w, c, d, d);
    ram.StoreCopy(d, a, w, c, d, d, d, d + w);
    ram.StoreCopy(d + n - w, b, w, c, d, d + w, d, d + n);
  }

  /** `copy_small`, up to sixteen bytes. */
  method CopySmall(ram: Ram, d: nat, s: nat, n: nat, ghost c: Copy)
    requires Begins(ram, d, s, c) && Ranges(ram, d, s, n) && n <= 16
    modifies ram.bytes
    ensures Copied(ram.bytes[..], c, d, d + n)
  {
    if n >= 8 {
      TwoEnds(ram, d, s, n, 8, c);
    } else if n >= 4 {
      TwoEnds(ram, d, s, n, 4, c);
    } else if n >= 2 {
      TwoEnds(ram, d, s, n, 2, c);
    } else if n != 0 {
      var a := ram.LoadOld(s, 1, c, d, d);
      ram.StoreCopy(d, a, 1, c, d, d, d, d + 1);
    }
  }

  /** Loads four vectors at four places. */
  method LoadFour(ram: Ram, p0: nat, p1: nat, p2: nat, p3: nat, ghost c: Copy, ghost lo: int, ghost hi: int)
    returns (v0: seq<Byte>, v1: seq<Byte>, v2: seq<Byte>, v3: seq<Byte>)
    requires p0 <= p1 <= p3 && p0 <= p2 <= p3 && p3 + 16 <= ram.bytes.Length && ram.Readable(p0, p3 + 16)
    requires Copied(ram.bytes[..], c, lo, hi) && (lo == hi || p3 + 16 <= lo || hi <= p0)
    ensures Belongs(v0, c, p0, 16) && Belongs(v1, c, p1, 16) && Belongs(v2, c, p2, 16) && Belongs(v3, c, p3, 16)
  {
    v0 := ram.LoadOld(p0, 16, c, lo, hi);
    v1 := ram.LoadOld(p1, 16, c, lo, hi);
    v2 := ram.LoadOld(p2, 16, c, lo, hi);
    v3 := ram.LoadOld(p3, 16, c, lo, hi);
  }

  /** The first half of `copy16`: two vectors at either end, all loaded before any is stored. */
  method CopyFour(ram: Ram, d: nat, s: nat, n: nat, ghost c: Copy)
    requires Begins(ram, d, s, c) && Ranges(ram, d, s, n) && 32 < n <= 64
    modifies ram.bytes
    ensures Copied(ram.bytes[..], c, d, d + n)
  {
    var v0, v1, v2, v3 := LoadFour(ram, s, s + 16, s + n - 32, s + n - 16, c, d, d);
    ghost var hi := if n - 16 < 32 then d + 32 else d + n - 16;
    ram.StoreCopy(d, v0, 16, c, d, d, d, d + 16);
    ram.StoreCopy(d + 16, v1, 16, c, d, d + 16, d, d + 32);
    ram.StoreCopy(d + n - 32, v2, 16, c, d, d + 32, d, hi);
    ram.StoreCopy(d + n - 16, v3, 16, c, d, hi, d, d + n);
  }

  /** A store that the processor makes only at a multiple of sixteen. */
  method StoreAligned(ram: Ram, q: nat, v: seq<Byte>, ghost c: Copy, ghost lo: int, ghost g: nat)
    requires q == 16 * g
    requires lo <= q && q + 16 <= ram.bytes.Length && Copied(ram.bytes[..], c, lo, q) && Belongs(v, c, q + c.delta, 16)
    modifies ram.bytes
    ensures Copied(ram.bytes[..], c, lo, q + 16)
  {
    ram.StoreCopy(q, v, 16, c, lo, q, lo, q + 16);
  }

  /** One turn of the aligned loop: four vectors further. */
  method Block(ram: Ram, q: nat, p: nat, ghost c: Copy, ghost lo: int, ghost g: nat)
    requires q == 16 * g && q + 64 <= ram.bytes.Length && p + 64 <= ram.bytes.Length && ram.Readable(p, p + 64)
    requires lo <= q && p == q + c.delta && Copied(ram.bytes[..], c, lo, q) && (p + 64 <= lo || q <= p)
    modifies ram.bytes
    ensures Copied(ram.bytes[..], c, lo, q + 64)
  {
    var v0, v1, v2, v3 := LoadFour(ram, p, p + 16, p + 32, p + 48, c, lo, q);
    StoreAligned(ram, q, v0, c, lo, g);
    StoreAligned(ram, q + 16, v1, c, lo, g + 1);
    StoreAligned(ram, q + 32, v2, c, lo, g + 2);
    StoreAligned(ram, q + 48, v3, c, lo, g + 3);
  }

  /** The aligned loop of `copy16`, from `q0` until four vectors are left or fewer. */
  method AlignedRun(ram: Ram, d: nat, s: nat, n: nat, q0: nat, ghost c: Copy, ghost g0: nat) returns (q: nat)
    requires Begins(ram, d, s, c) && Ranges(ram, d, s, n) && 64 < n && ForwardIsRight(d, s, n)
    requires d <= q0 <= d + 16 && q0 == 16 * g0
    modifies ram.bytes
    ensures q0 <= q < d + n && d + n - 64 <= q && Copied(ram.bytes[..], c, q0, q)
  {
    q := q0;
    var p := s + (q0 - d);
    ghost var g := g0;
    while q < d + n - 64
      invariant q0 <= q < d + n && q == 16 * g && p == q + c.delta
      invariant Copied(ram.bytes[..], c, q0, q)
    {
      Block(ram, q, p, c, q0, g);
      q, p, g := q + 64, p + 64, g + 4;
    }
  }

  /** The second half of `copy16`. One vector covers the front up to a multiple of sixteen, blocks the middle, and
      four vectors, read at the outset, whatever the blocks leave. */
  method CopyForward(ram: Ram, d: nat, s: nat, n: nat, ghost c: Copy)
    requires Begins(ram, d, s, c) && Ranges(ram, d, s, n) && 64 < n && ForwardIsRight(d, s, n)
    modifies ram.bytes
    ensures Copied(ram.bytes[..], c, d, d + n)
  {
    var h := ram.LoadOld(s, 16, c, d, d);
    var t0, t1, t2, t3 := LoadFour(ram, s + n - 64, s + n - 48, s + n - 32, s + n - 16, c, d, d);
    var q0 := d + (16 - d % 16);
    var q := AlignedRun(ram, d, s, n, q0, c, d / 16 + 1);
    ghost var hi := if q == q0 || q < d + 16 then d + 16 else q;
    ram.StoreCopy(d, h, 16, c, q0, q, d, hi);
    StoreLast(ram, d, n, t0, t1, t2, t3, c, hi);
  }

  /** The last four vectors, behind or across what the loop stored. */
  method StoreLast(ram: Ram, d: nat, n: nat, t0: seq<Byte>, t1: seq<Byte>, t2: seq<Byte>, t3: seq<Byte>,
                   ghost c: Copy, ghost hi: int)
    requires 64 < n && d + n <= ram.bytes.Length && d < hi <= d + n && d + n - 64 <= hi
    requires Copied(ram.bytes[..], c, d, hi)
    requires var e := d + n + c.delta;
             Belongs(t0, c, e - 64, 16) && Belongs(t1, c, e - 48, 16) && Belongs(t2, c, e - 32, 16) &&
                 Belongs(t3, c, e - 16, 16)
    modifies ram.bytes
    ensures Copied(ram.bytes[..], c, d, d + n)
  {
    var e := d + n;
    ghost var h0 := if hi < e - 48 then e - 48 else hi;
    ghost var h1 := if h0 < e - 32 then e - 32 else h0;
    ghost var h2 := if h1 < e - 16 then e - 16 else h1;
    ram.StoreCopy(e - 64, t0, 16, c, d, hi, d, h0);
    ram.StoreCopy(e - 48, t1, 16, c, d, h0, d, h1);
    ram.StoreCopy(e - 32, t2, 16, c, d, h1, d, h2);
    ram.StoreCopy(e - 16, t3, 16, c, d, h2, d, e);
  }

  /** `copy16` */
  method Copy16(ram: Ram, d: nat, s: nat, n: nat, ghost c: Copy)
    requires Begins(ram, d, s, c) && Ranges(ram, d, s, n) && 32 < n && ForwardIsRight(d, s, n)
    modifies ram.bytes
    ensures Copied(ram.bytes[..], c, d, d + n)
  {
    if n <= 64 { CopyFour(ram, d, s, n, c); } else { CopyForward(ram, d, s, n, c); }
  }

  /** Four vectors in front of what has been copied, or across where it begins. */
  method StoreInFront(ram: Ram, q: nat, v0: seq<Byte>, v1: seq<Byte>, v2: seq<Byte>, v3: seq<Byte>, ghost c: Copy,
                      ghost lo: int, ghost hi: int)
    requires q <= lo <= q + 64 <= hi && 0 <= q + c.delta && hi + c.delta <= ram.bytes.Length
    requires Copied(ram.bytes[..], c, lo, hi)
    requires var p := q + c.delta;
             Belongs(v0, c, p, 16) && Belongs(v1, c, p + 16, 16) && Belongs(v2, c, p + 32, 16) &&
                 Belongs(v3, c, p + 48, 16)
    modifies ram.bytes
    ensures Copied(ram.bytes[..], c, q, hi)
  {
    Meet(ram.bytes[..], c, q, q, lo, hi);
    ram.StoreGap(q, v0, 16, c, q, lo, hi);
    ram.StoreGap(q + 16, v1, 16, c, q, lo, hi);
    ram.StoreGap(q + 32, v2, 16, c, q, lo, hi);
    ram.StoreGap(q + 48, v3, 16, c, q, lo, hi);
    Meet(ram.bytes[..], c, q, q + 64, lo, hi);
  }

  /** A block in front of what has been copied. */
  method BlockBack(ram: Ram, q: nat, p: nat, ghost c: Copy, ghost hi: int)
    requires p == q + c.delta && p <= q && p + 64 <= ram.bytes.Length && ram.Readable(p, p + 64)
    requires q + 64 <= hi && Copied(ram.bytes[..], c, q + 64, hi) && hi + c.delta <= ram.bytes.Length
    modifies ram.bytes
    ensures Copied(ram.bytes[..], c, q, hi)
  {
    var a, b, e, f := LoadFour(ram, p, p + 16, p + 32, p + 48, c, q + 64, hi);
    StoreInFront(ram, q, a, b, e, f, c, q + 64, hi);
  }

  /** `copyback16`: from the end, the first four vectors kept until the last. */
  method CopyBack(ram: Ram, d: nat, s: nat, n: nat, ghost c: Copy)
    requires Begins(ram, d, s, c) && Ranges(ram, d, s, n) && 64 < n && s <= d
    modifies ram.bytes
    ensures Copied(ram.bytes[..], c, d, d + n)
  {
    var h0, h1, h2, h3 := LoadFour(ram, s, s + 16, s + 32, s + 48, c, d, d);
    var k := n;
    assert Copied(ram.bytes[..], c, d + n, d + n);
    while k > 64
      invariant 0 < k <= n
      invariant Copied(ram.bytes[..], c, d + k, d + n)
    {
      k := k - 64;
      BlockBack(ram, d + k, s + k, c, d + n);
    }
    StoreInFront(ram, d, h0, h1, h2, h3, c, d + k, d + n);
  }

  /** The vectors `move_short` loads: whole ones from the beginning. */
  method LoadShort(ram: Ram, s: nat, k: nat, ghost c: Copy, ghost at: int) returns (v: seq<seq<Byte>>)
    requires s + 16 * k <= ram.bytes.Length && ram.Readable(s, s + 16 * k) && Copied(ram.bytes[..], c, at, at)
    ensures |v| == k && forall j :: 0 <= j < k ==> Belongs(v[j], c, s + 16 * j, 16)
  {
    v := [];
    for i := 0 to k
      invariant |v| == i && forall j :: 0 <= j < i ==> Belongs(v[j], c, s + 16 * j, 16)
    {
      var x := ram.LoadOld(s + 16 * i, 16, c, at, at);
      v := v + [x];
    }
  }

  /** And stores, one behind the other. */
  method StoreShort(ram: Ram, d: nat, v: seq<seq<Byte>>, k: nat, ghost c: Copy)
    requires d + 16 * k <= ram.bytes.Length && Copied(ram.bytes[..], c, d, d) && d + c.delta >= 0
    requires |v| == k && forall j :: 0 <= j < k ==> Belongs(v[j], c, d + c.delta + 16 * j, 16)
    modifies ram.bytes
    ensures Copied(ram.bytes[..], c, d, d + 16 * k)
  {
    for i := 0 to k
      invariant Copied(ram.bytes[..], c, d, d + 16 * i)
    {
      assert Belongs(v[i], c, d + c.delta + 16 * i, 16);
      ram.StoreCopy(d + 16 * i, v[i], 16, c, d, d + 16 * i, d, d + 16 * (i + 1));
    }
  }

  /** `move_short`: up to four vectors in a list, the last of them the last sixteen bytes. */
  method MoveShort(ram: Ram, d: nat, s: nat, n: nat, ghost c: Copy)
    requires Begins(ram, d, s, c) && Ranges(ram, d, s, n) && 16 < n <= 64
    modifies ram.bytes
    ensures Copied(ram.bytes[..], c, d, d + n)
  {
    var k := (n + 15) / 16;
    assert 1 < k && 16 * (k - 1) < n <= 16 * k;
    var v := LoadShort(ram, s, k - 1, c, d);
    var last := ram.LoadOld(s + n - 16, 16, c, d, d);
    StoreShort(ram, d, v, k - 1, c);
    ram.StoreCopy(d + n - 16, last, 16, c, d, d + 16 * (k - 1), d, d + n);
  }

  /** `memcpy16`, which `memmove16` uses where a forward copy is right. */
  method Memcpy16(ram: Ram, d: nat, s: nat, n: nat, ghost c: Copy)
    requires Begins(ram, d, s, c) && Ranges(ram, d, s, n) && ForwardIsRight(d, s, n)
    modifies ram.bytes
    ensures Copied(ram.bytes[..], c, d, d + n)
  {
    if n <= 16 {
      CopySmall(ram, d, s, n, c);
    } else if n <= 32 {
      TwoEnds(ram, d, s, n, 16, c);
    } else {
      Copy16(ram, d, s, n, c);
    }
  }

  /** The difference of two addresses as the processor has it, without a sign. */
  function Distance(d: nat, s: nat): nat { (d - s) % ADDRESSES }

  lemma DistanceTells(d: nat, s: nat, n: nat)
    requires d + n <= ADDRESSES && s + n <= ADDRESSES
    ensures n > 0 ==> (Distance(d, s) >= n <==> ForwardIsRight(d, s, n))
  {
    if d < s {
      assert n > 0 ==> Distance(d, s) == d - s + ADDRESSES;
    } else {
      assert n > 0 ==> Distance(d, s) == d - s;
    }
  }

  method Move(ram: Ram, d: nat, s: nat, n: nat, ghost c: Copy)
    requires ram.bytes.Length <= ADDRESSES && Begins(ram, d, s, c) && Ranges(ram, d, s, n)
    modifies ram.bytes
    ensures Copied(ram.bytes[..], c, d, d + n)
  {
    DistanceTells(d, s, n);
    if Distance(d, s) >= n {
      Memcpy16(ram, d, s, n, c);
    } else if n <= 16 {
      CopySmall(ram, d, s, n, c);
    } else if n <= 64 {
      MoveShort(ram, d, s, n, c);
    } else {
      CopyBack(ram, d, s, n, c);
    }
  }

  /** What a move leaves in memory. */
  function Moved(was: seq<Byte>, d: nat, s: nat, n: nat): seq<Byte>
    requires d + n <= |was| && s + n <= |was|
  {
    was[..d] + was[s..s + n] + was[d + n..]
  }

  lemma CopiedIsMoved(now: seq<Byte>, c: Copy, d: nat, s: nat, n: nat)
    requires s + n <= |now| && c.delta == s - d && Copied(now, c, d, d + n)
    ensures now == Moved(c.was, d, s, n)
  {
    var m := Moved(c.was, d, s, n);
    forall a | 0 <= a < |now| ensures now[a] == m[a] { assert Addr(a); }
  }

  /** `memmove16`. Whatever the length and however the ranges lie, the destination receives what the
      source held, nothing else changes, and nothing outside the source is read. */
  method Memmove16(ram: Ram, d: nat, s: nat, n: nat)
    requires ram.bytes.Length <= ADDRESSES && Ranges(ram, d, s, n)
    modifies ram.bytes
    ensures ram.bytes[..] == Moved(old(ram.bytes[..]), d, s, n)
  {
    ghost var c := Copy(ram.bytes[..], s - d);
    Move(ram, d, s, n, c);
    CopiedIsMoved(ram.bytes[..], c, d, s, n);
  }
}
