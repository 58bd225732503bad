/**
  The record of anonymous memory as the program keeps it: an array that grows, kept in order, and the
  calls that map and unmap.
*/
module Regions {
  import opened Ranges

  function Pow2(e: nat): (p: nat)
    ensures p > 0
  {
    if e == 0 then 1 else 2 * Pow2(e - 1)
  }

  lemma {:induction false} PowSplit(e: nat, n: nat)
    requires e <= n
    ensures Pow2(n) == Pow2(n - e) * Pow2(e)
    decreases e
  {
    if e > 0 {
      PowSplit(e - 1, n);
      assert Pow2(n - e + 1) == 2 * Pow2(n - e);
      assert Pow2(e) == 2 * Pow2(e - 1);
      assert Pow2(n) == (2 * Pow2(n - e)) * Pow2(e - 1) == Pow2(n - e) * (2 * Pow2(e - 1));
    }
  }

  lemma Pow64()
    ensures Pow2(64) == ADDRESSES
  {
    assert Pow2(8) == 0x100;
    PowSplit(8, 16);
    PowSplit(16, 32);
    PowSplit(32, 64);
  }

  lemma {:induction false} PowIsGrain(e: nat)
    requires e < 64
    ensures Pow2(e) < ADDRESSES && IsGrain(Pow2(e))
  {
    PowSplit(e, 64);
    Pow64();
    PowMono(1, 64 - e);
    Factor(Pow2(64 - e), Pow2(e), ADDRESSES);
  }

  lemma Factor(q: nat, g: nat, n: nat)
    requires n == q * g && 0 < g && 2 <= q
    ensures g < n && n / g * g == n
  {
    MulMono(2, q, g);
    Exact(q, g);
  }

  lemma Exact(q: nat, g: nat)
    requires 0 < g
    ensures q * g / g == q
  {
    var d := q * g / g;
    Division(q * g, g);
    assert (d + 1) * g == d * g + g && (q + 1) * g == q * g + g;
    if d < q {
      MulMono(d + 1, q, g);
    } else if d > q {
      MulMono(q + 1, d, g);
    }
  }

  lemma {:induction false} PowMono(d: nat, e: nat)
    requires d <= e
    ensures Pow2(d) <= Pow2(e)
    decreases e
  {
    if d < e { PowMono(d, e - 1); }
  }

  /** `x & (x - 1)`, bit by bit: the lowest one cleared. */
  function LowestCleared(x: nat): (y: nat) {
    if x == 0 then 0 else if x % 2 == 1 then x - 1 else 2 * LowestCleared(x / 2)
  }

  ghost predicate IsPow2(x: nat) { exists e: nat :: x == Pow2(e) }

  lemma {:induction false} ClearedIsPow2(x: nat)
    requires x > 0
    ensures LowestCleared(x) == 0 <==> IsPow2(x)
  {
    if x == 1 {
      assert x == Pow2(0);
    } else if x % 2 == 1 {
      forall e: nat ensures x != Pow2(e) {
        if e > 0 { assert Pow2(e) == 2 * Pow2(e - 1); }
      }
    } else {
      ClearedIsPow2(x / 2);
      if IsPow2(x / 2) {
        var e: nat :| x / 2 == Pow2(e);
        assert x == Pow2(e + 1);
      }
      if IsPow2(x) {
        var e: nat :| x == Pow2(e);
        assert x / 2 == Pow2(e - 1);
      }
    }
  }

  /** The powers of two that fit in 64 bits are those below the 64th. */
  lemma FittingPow2(g: nat)
    requires IsPow2(g) && g < ADDRESSES
    ensures exists e: nat :: e < 64 && g == Pow2(e)
    ensures IsGrain(g)
  {
    var e: nat :| g == Pow2(e);
    Pow64();
    if e >= 64 {
      PowMono(64, e);
    }
    PowIsGrain(e);
  }

  /** `grain`: the least power of two that is at least the environment's granularity and at least 4096, or 4096 when
      that power does not fit in 64 bits. */
  method Grain(g: nat) returns (p: nat)
    requires g < ADDRESSES
    ensures IsPow2(p) && 4096 <= p < ADDRESSES && IsGrain(p)
    ensures g < 4096 ==> p == 4096
    ensures g >= 4096 && IsPow2(g) ==> p == g
    ensures g >= 4096 && !IsPow2(g) ==> (if g > ADDRESSES / 2 then p == 4096 else g < p < 2 * g)
  {
    assert Pow2(12) == 4096;
    PowIsGrain(12);
    if g < 4096 {
      return 4096;
    }
    ClearedIsPow2(g);
    if LowestCleared(g) == 0 {
      FittingPow2(g);
      return g;
    }
    p := NextPow2(g);
    if p == 0 {
      return 4096;
    }
    FittingPow2(p);
  }

  /** The loop of `grain`: a one shifted up until it is no less than `g`, or out of the word. */
  method NextPow2(g: nat) returns (p: nat)
    requires 4096 <= g < ADDRESSES
    ensures p == 0 <==> g > ADDRESSES / 2
    ensures p != 0 ==> IsPow2(p) && g <= p < 2 * g && p < ADDRESSES && 4096 <= p
  {
    ghost var e := 12;
    assert Pow2(12) == 4096;
    p := 4096;
    while p != 0 && p < g
      invariant 12 <= e <= 64 && p == (if e < 64 then Pow2(e) else 0) && p < ADDRESSES
      invariant p < 2 * g && (e == 64 <==> p == 0) && (e == 64 ==> g > ADDRESSES / 2)
      decreases 64 - e
    {
      Shift(e);
      p := 2 * p % ADDRESSES;
      e := e + 1;
    }
    if p != 0 {
      PowIsGrain(e);
      PowMono(12, e);
      PowMono(e, 63);
      Shift(63);
    }
  }

  lemma Shift(e: nat)
    requires e < 64
    ensures Pow2(e + 1) == 2 * Pow2(e)
    ensures 2 * Pow2(e) % ADDRESSES == if e < 63 then Pow2(e + 1) else 0
    ensures e == 63 ==> Pow2(e) == ADDRESSES / 2
    ensures e < 63 ==> Pow2(e + 1) < ADDRESSES
  {
    Pow64();
    if e < 63 { PowIsGrain(e + 1); }
  }

  /** What the environment is asked to do once the lock is free. */
  datatype Request = Nothing | Release(r: Range) | Decommit(lo: int, hi: int)

  datatype Answer = NotMine | Invalid | Ok

  class Record {
    var ranges: array<Range>
    var count: nat

    ghost predicate Valid()
      reads this, ranges
    {
      count <= ranges.Length && Ordered(Contents())
    }

    ghost function Contents(): (s: seq<Range>)
      reads this, ranges
      requires count <= ranges.Length
    {
      ranges[..count]
    }

    constructor ()
      ensures Valid() && Contents() == [] && fresh(ranges)
    {
      ranges := new Range[0];
      count := 0;
    }

    /** `lower`: how many ranges end at or below an address, by halving. */
    method Lower(a: nat) returns (i: nat)
      requires Valid()
      ensures IsLower(Contents(), a, i)
    {
      var lo, hi := 0, count;
      while lo < hi
        invariant lo <= hi <= count
        invariant forall j :: 0 <= j < lo ==> ranges[j].End() <= a
        invariant forall j :: hi <= j < count ==> a < ranges[j].End()
      {
        var mid := lo + (hi - lo) / 2;
        ghost var s := Contents();
        assert forall j :: 0 <= j < count ==> s[j] == ranges[j];
        if (ranges[mid].base + ranges[mid].size) % ADDRESSES <= a {
          assert forall j :: 0 <= j < mid ==> s[j].End() <= s[mid].base;
          lo := mid + 1;
        } else {
          assert forall j :: mid < j < count ==> s[mid].End() <= s[j].base;
          hi := mid;
        }
      }
      i := lo;
    }

    /** `find`: what looking at each range in turn would find. */
    method Find(a: nat) returns (i: int)
      requires Valid()
      ensures i == Linear(Contents(), a)
    {
      var k := Lower(a);
      SearchIsLinear(Contents(), a, k);
      i := if k < count && ranges[k].base <= a then k else -1;
    }

    /** Makes room for one more, unless the environment has no memory. */
    method Grow(memory: bool) returns (ok: bool)
      requires Valid()
      modifies this
      ensures Valid() && Contents() == old(Contents()) && ok == (old(count) < old(ranges.Length) || memory)
      ensures ok ==> count < ranges.Length
      ensures ranges == old(ranges) || fresh(ranges)
    {
      if count < ranges.Length { return true; }
      if !memory { return false; }
      var cap := if ranges.Length != 0 then ranges.Length * 2 else 256;
      var n := new Range[cap](_ => Range(0, 0));
      for j := 0 to count
        invariant ranges == old(ranges) && count == old(count) && n[..j] == ranges[..j]
      {
        n[j] := ranges[j];
      }
      ranges := n;
      ok := true;
    }

    /** A range put at an index, those from there on moved one up. */
    method PutAt(r: Range, i: nat)
      requires i <= count < ranges.Length
      modifies this`count, ranges
      ensures count == old(count) + 1 && count <= ranges.Length && Contents() == Inserted(old(Contents()), r, i)
    {
      ghost var s := ranges[..count];
      var k := count;
      while k > i
        invariant i <= k <= count == old(count)
        invariant forall j :: 0 <= j < k ==> ranges[j] == s[j]
        invariant forall j :: k < j <= count ==> ranges[j] == s[j - 1]
      {
        ranges[k] := ranges[k - 1];
        k := k - 1;
      }
      ranges[i] := r;
      count := count + 1;
      forall j | 0 <= j < count ensures ranges[..count][j] == Inserted(s, r, i)[j] { InsertedAt(s, r, i, j); }
    }

    /** The range at an index dropped, those behind it moved one down. */
    method DropAt(i: nat)
      requires i < count <= ranges.Length
      modifies this`count, ranges
      ensures count == old(count) - 1 && Contents() == Removed(old(Contents()), i)
    {
      ghost var s := ranges[..count];
      var k := i;
      while k < count - 1
        invariant i <= k <= count - 1 && count == old(count)
        invariant forall j :: 0 <= j < i ==> ranges[j] == s[j]
        invariant forall j :: i <= j < k ==> ranges[j] == s[j + 1]
        invariant forall j :: k < j < count ==> ranges[j] == s[j]
      {
        ranges[k] := ranges[k + 1];
        k := k + 1;
      }
      count := count - 1;
      forall j | 0 <= j < count ensures ranges[..count][j] == Removed(s, i)[j] { RemovedAt(s, i, j); }
    }

    /** `record`: the range is put in its place, or, without memory, nothing changes. */
    method Insert(r: Range, memory: bool) returns (ok: bool)
      requires Valid() && r.Real() && forall q :: q in All(Contents()) ==> q.Apart(r)
      modifies this, ranges
      ensures Valid() && (ranges == old(ranges) || fresh(ranges))
      ensures ok == (old(count) < old(ranges.Length) || memory)
      ensures !ok ==> Contents() == old(Contents())
      ensures ok ==> All(Contents()) == All(old(Contents())) + {r} && r !in All(old(Contents()))
    {
      ok := Grow(memory);
      if !ok { return; }
      ghost var s := Contents();
      var i := Lower(r.base);
      InsertKeepsOrder(s, r, i);
      PutAt(r, i);
    }

    /** `okm_region_unmap`, up to the calls that are made without the lock: what becomes of the record,
        and what the environment is asked to do. */
    method Unmap(a: nat, len: nat, g: nat) returns (answer: Answer, ask: Request)
      requires Valid() && 0 < g < ADDRESSES && len < ADDRESSES
      modifies this, ranges
      ensures Valid() && ranges == old(ranges)
      ensures var s, i := old(Contents()), Linear(old(Contents()), a);
        if i < 0 then answer == NotMine && ask == Nothing && Contents() == s
        else if a % g != 0 then answer == Invalid && ask == Nothing && Contents() == s
        else
          var (lo, hi) := PartOf(s[i], a, len, g);
          && answer == Ok
          && if lo == s[i].base && hi == s[i].End()
             then ask == Release(s[i]) && Contents() == Removed(s, i)
             else Contents() == s && ask == if lo < hi then Decommit(lo, hi) else Nothing
    {
      var i := Find(a);
      if i < 0 { return NotMine, Nothing; }
      var r := ranges[i];
      if a % g != 0 { return Invalid, Nothing; }
      var (lo, hi) := PartOf(r, a, len, g);
      if lo == r.base && hi == r.End() {
        ghost var s := Contents();
        RemoveKeepsOrder(s, i);
        DropAt(i);
        return Ok, Release(r);
      }
      return Ok, if lo < hi then Decommit(lo, hi) else Nothing;
    }
  }
}
