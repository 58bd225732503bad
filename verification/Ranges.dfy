/**
  The record of anonymous memory as a value: ranges of addresses in order, what a search for an
  address finds, and what recording and removing one leave.
*/
module Ranges {

  const ADDRESSES: int := 0x1_0000_0000_0000_0000

  datatype Range = Range(base: nat, size: nat) {
    function End(): nat { base + size }

    predicate Holds(a: int) { base <= a < End() }

    /** Something, below the last address. */
    predicate Real() { 0 < size && End() < ADDRESSES }

    predicate Apart(r: Range) { End() <= r.base || r.End() <= base }
  }

  /** Each range ends before the next begins. */
  predicate Ordered(s: seq<Range>) {
    && (forall i :: 0 <= i < |s| ==> s[i].Real())
    && forall i, j :: 0 <= i < j < |s| ==> s[i].End() <= s[j].base
  }

  /** Where halving comes to: all before end at or below the address, all from there on above it. */
  predicate IsLower(s: seq<Range>, a: nat, i: nat) {
    && i <= |s| && (forall j :: 0 <= j < i ==> s[j].End() <= a)
    && forall j :: i <= j < |s| ==> a < s[j].End()
  }

  /** The range that holds an address, by looking at each in turn; -1 when there is none. */
  function Linear(s: seq<Range>, a: nat): (i: int)
    ensures -1 <= i < |s|
    ensures i >= 0 ==> s[i].Holds(a)
    ensures i < 0 ==> forall j :: 0 <= j < |s| ==> !s[j].Holds(a)
  {
    if s == [] then -1
    else if s[0].Holds(a) then 0
    else var i := Linear(s[1..], a); if i < 0 then -1 else i + 1
  }

  /** In an ordered record there is at most one range that holds an address. */
  lemma OneHolds(s: seq<Range>, a: nat, i: nat, j: nat)
    requires Ordered(s) && i < |s| && j < |s| && s[i].Holds(a) && s[j].Holds(a)
    ensures i == j
  {
  }

  /** What the search finds is what looking at each in turn does. */
  lemma {:induction false} SearchIsLinear(s: seq<Range>, a: nat, i: nat)
    requires Ordered(s) && IsLower(s, a, i)
    ensures Linear(s, a) == if i < |s| && s[i].base <= a then i else -1
  {
    if i < |s| && s[i].base <= a {
      assert s[i].Holds(a);
      OneHolds(s, a, i, Linear(s, a));
    } else {
      assert forall j :: 0 <= j < |s| ==> !s[j].Holds(a);
    }
  }

  /** A range put where it belongs. */
  function Inserted(s: seq<Range>, r: Range, i: nat): (t: seq<Range>)
    requires i <= |s|
    ensures |t| == |s| + 1
  {
    s[..i] + [r] + s[i..]
  }

  function Removed(s: seq<Range>, i: nat): (t: seq<Range>)
    requires i < |s|
    ensures |t| == |s| - 1
  {
    s[..i] + s[i + 1..]
  }

  /** The ranges recorded. */
  function All(s: seq<Range>): set<Range> { set i | 0 <= i < |s| :: s[i] }

  lemma InsertedAt(s: seq<Range>, r: Range, i: nat, j: nat)
    requires i <= |s| && j <= |s|
    ensures Inserted(s, r, i)[j] == if j < i then s[j] else if j == i then r else s[j - 1]
  {
  }

  lemma InsertedAll(s: seq<Range>, r: Range, i: nat)
    requires i <= |s|
    ensures All(Inserted(s, r, i)) == All(s) + {r}
  {
    var t := Inserted(s, r, i);
    assert t[i] == r;
    forall j | 0 <= j < |t| ensures t[j] in All(s) + {r} { InsertedAt(s, r, i, j); }
    forall j | 0 <= j < |s| ensures s[j] in All(t) { InsertedAt(s, r, i, if j < i then j else j + 1); }
  }

  lemma InsertedOrdered(s: seq<Range>, r: Range, i: nat)
    requires Ordered(s) && r.Real() && IsLower(s, r.base, i) && forall j :: 0 <= j < |s| ==> s[j].Apart(r)
    ensures Ordered(Inserted(s, r, i))
  {
    var t := Inserted(s, r, i);
    forall j | 0 <= j < |t| ensures t[j] == if j < i then s[j] else if j == i then r else s[j - 1] {
      InsertedAt(s, r, i, j);
    }
  }

  lemma InsertKeepsOrder(s: seq<Range>, r: Range, i: nat)
    requires Ordered(s) && r.Real() && IsLower(s, r.base, i) && forall q :: q in All(s) ==> q.Apart(r)
    ensures Ordered(Inserted(s, r, i)) && All(Inserted(s, r, i)) == All(s) + {r} && r !in All(s)
  {
    forall j | 0 <= j < |s| ensures s[j].Apart(r) { assert s[j] in All(s); }
    InsertedOrdered(s, r, i);
    InsertedAll(s, r, i);
    assert !r.Apart(r);
  }

  lemma RemovedAt(s: seq<Range>, i: nat, j: nat)
    requires i < |s| && j < |s| - 1
    ensures Removed(s, i)[j] == s[if j < i then j else j + 1]
  {
  }

  lemma RemovedAll(s: seq<Range>, i: nat)
    requires Ordered(s) && i < |s|
    ensures All(Removed(s, i)) == All(s) - {s[i]} && s[i] in All(s)
  {
    var t := Removed(s, i);
    forall q | q in All(s) && q != s[i] ensures q in All(t) {
      var j :| 0 <= j < |s| && s[j] == q;
      RemovedAt(s, i, if j < i then j else j - 1);
    }
    forall j | 0 <= j < |t| ensures t[j] in All(s) && t[j] != s[i] {
      RemovedAt(s, i, j);
      AllDiffer(s, i, if j < i then j else j + 1);
    }
  }

  lemma AllDiffer(s: seq<Range>, i: nat, j: nat)
    requires Ordered(s) && i < |s| && j < |s| && i != j
    ensures s[i] != s[j]
  {
    if i < j { assert s[i].End() <= s[j].base; } else { assert s[j].End() <= s[i].base; }
  }

  lemma RemovedOrdered(s: seq<Range>, i: nat)
    requires Ordered(s) && i < |s|
    ensures Ordered(Removed(s, i))
  {
    var t := Removed(s, i);
    forall j | 0 <= j < |t| ensures t[j] == s[if j < i then j else j + 1] { RemovedAt(s, i, j); }
  }

  lemma RemoveKeepsOrder(s: seq<Range>, i: nat)
    requires Ordered(s) && i < |s|
    ensures Ordered(Removed(s, i)) && All(Removed(s, i)) == All(s) - {s[i]} && s[i] in All(s)
  {
    RemovedOrdered(s, i);
    RemovedAll(s, i);
  }

  // --- the last address ---

  /** Ranges in order, of which the last may end at the top of the address space. */
  predicate Laid(s: seq<Range>) {
    && (forall i :: 0 <= i < |s| ==> 0 < s[i].size && s[i].End() <= ADDRESSES)
    && forall i, j :: 0 <= i < j < |s| ==> s[i].End() <= s[j].base
  }

  /** The ends of ranges as the sums come out in 64 bits. */
  function WrappedEnds(s: seq<Range>): (ends: seq<nat>)
    ensures |ends| == |s| && forall i :: 0 <= i < |s| ==> ends[i] == s[i].End() % ADDRESSES
  {
    seq(|s|, i requires 0 <= i < |s| => s[i].End() % ADDRESSES)
  }

  /** Where halving comes to, by the ends. */
  function Halved(ends: seq<nat>, a: nat, lo: nat, hi: nat): (i: nat)
    requires lo <= hi <= |ends|
    ensures lo <= i <= hi && (i < hi ==> a < ends[i])
    decreases hi - lo
  {
    if lo == hi then lo
    else
      var mid := lo + (hi - lo) / 2;
      if ends[mid] <= a then Halved(ends, a, mid + 1, hi) else Halved(ends, a, lo, mid)
  }

  function Searched(s: seq<Range>, a: nat): int {
    var i := Halved(WrappedEnds(s), a, 0, |s|);
    if i < |s| && s[i].base <= a then i else -1
  }

  predicate Rising(ends: seq<nat>) { forall i, j :: 0 <= i < j < |ends| ==> ends[i] <= ends[j] }

  predicate Low(ends: seq<nat>, a: nat, n: nat) { n <= |ends| && forall j :: 0 <= j < n ==> ends[j] <= a }

  predicate High(ends: seq<nat>, a: nat, n: nat) { n <= |ends| && forall j :: n <= j < |ends| ==> a < ends[j] }

  lemma LowOn(ends: seq<nat>, a: nat, mid: nat)
    requires Rising(ends) && mid < |ends|
    ensures if ends[mid] <= a then Low(ends, a, mid + 1) else High(ends, a, mid)
  {
  }

  lemma HalvedOnce(ends: seq<nat>, a: nat, lo: nat, hi: nat) returns (mid: nat)
    requires lo < hi <= |ends|
    ensures lo <= mid < hi
    ensures Halved(ends, a, lo, hi) == if ends[mid] <= a then Halved(ends, a, mid + 1, hi) else Halved(ends, a, lo, mid)
  {
    mid := lo + (hi - lo) / 2;
  }

  lemma {:induction false} HalvedIsLower(ends: seq<nat>, a: nat, lo: nat, hi: nat)
    requires Rising(ends) && lo <= hi && Low(ends, a, lo) && High(ends, a, hi)
    ensures Low(ends, a, Halved(ends, a, lo, hi)) && High(ends, a, Halved(ends, a, lo, hi))
    decreases hi - lo
  {
    if lo < hi {
      var mid := HalvedOnce(ends, a, lo, hi);
      LowOn(ends, a, mid);
      if ends[mid] <= a { HalvedIsLower(ends, a, mid + 1, hi); } else { HalvedIsLower(ends, a, lo, mid); }
    }
  }

  lemma EndFits(r: Range)
    requires r.Real()
    ensures r.End() % ADDRESSES == r.End()
  {
  }

  lemma {:induction false} SearchedIsLinear(s: seq<Range>, a: nat)
    requires Ordered(s)
    ensures Searched(s, a) == Linear(s, a)
  {
    var ends := WrappedEnds(s);
    forall i | 0 <= i < |s| ensures ends[i] == s[i].End() { EndFits(s[i]); }
    forall i, j | 0 <= i < j < |s| ensures ends[i] <= ends[j] { assert s[i].End() <= s[j].base; }
    HalvedIsLower(ends, a, 0, |s|);
    SearchIsLinear(s, a, Halved(ends, a, 0, |s|));
  }

  /** The search finds what looking at each in turn does, for every address, exactly when no range ends at the
      top: the end of one that does comes out as zero. */
  lemma {:induction false} SearchRightExactly(s: seq<Range>)
    requires Laid(s)
    ensures (forall a: nat :: a < ADDRESSES ==> Searched(s, a) == Linear(s, a)) <==>
      forall i :: 0 <= i < |s| ==> s[i].End() < ADDRESSES
  {
    if i :| 0 <= i < |s| && s[i].End() == ADDRESSES {
      TopIsMissed(s, i);
      assert !(forall a: nat :: a < ADDRESSES ==> Searched(s, a) == Linear(s, a));
    } else {
      forall a: nat | a < ADDRESSES ensures Searched(s, a) == Linear(s, a) { SearchedIsLinear(s, a); }
    }
  }

  /** The last address of a range that ends at the top is not found. */
  lemma {:induction false} TopIsMissed(s: seq<Range>, i: nat)
    requires Laid(s) && i < |s| && s[i].End() == ADDRESSES
    ensures Searched(s, ADDRESSES - 1) == -1 && Linear(s, ADDRESSES - 1) >= 0
  {
    assert s[i].Holds(ADDRESSES - 1);
    var ends := WrappedEnds(s);
    forall k | 0 <= k < |s| ensures ends[k] < ADDRESSES {}
    assert Halved(ends, ADDRESSES - 1, 0, |s|) == |s|;
  }

  // --- lengths and parts ---

  /** The greatest multiple of a page that is no more than a number (`x & ~(g - 1)`). */
  function Floor(x: nat, g: nat): (f: nat)
    requires 0 < g
    ensures f <= x < f + g
  {
    Division(x, g);
    x / g * g
  }

  lemma Division(x: nat, g: nat)
    requires 0 < g
    ensures 0 <= x / g * g <= x < x / g * g + g
  {
    assert x == g * (x / g) + x % g;
  }

  /** A length in whole pages. */
  function Ceiling(len: nat, g: nat): (c: nat)
    requires 0 < g
    ensures len <= c < len + g
  {
    Floor(len + g - 1, g)
  }

  /** The same with the sum taken in 64 bits, as the code does. */
  function Rounded(len: nat, g: nat): nat
    requires 0 < g
  {
    Floor((len + g - 1) % ADDRESSES, g)
  }

  /** A page divides the space of addresses. */
  predicate IsGrain(g: nat) { 0 < g < ADDRESSES && ADDRESSES / g * g == ADDRESSES }

  /** A length whose pages cannot be counted in 64 bits is the space of addresses at least. */
  lemma LongIsAll(len: nat, g: nat)
    requires IsGrain(g) && len < ADDRESSES
    ensures len + g - 1 >= ADDRESSES ==> Ceiling(len, g) >= ADDRESSES
    ensures Ceiling(len, g) < 2 * ADDRESSES
  {
    Times((len + g - 1) / g, ADDRESSES / g, g);
  }

  lemma Times(k: nat, m: nat, g: nat)
    requires 0 < g
    ensures k * g > (m - 1) * g ==> k * g >= m * g
    ensures (m - 1) * g == m * g - g
  {
    if k < m {
      assert k * g <= (m - 1) * g by { MulMono(k, m - 1, g); }
    } else {
      MulMono(m, k, g);
    }
  }

  lemma MulMono(x: nat, y: nat, g: nat)
    requires x <= y
    ensures x * g <= y * g
  {
    assert (y - x) * g >= 0;
  }

  lemma RoundedWraps(len: nat, g: nat)
    requires 0 < g < ADDRESSES && len < ADDRESSES
    ensures Rounded(len, g) == if len + g - 1 < ADDRESSES then Ceiling(len, g) else 0
  {
    var sum := len + g - 1;
    WrapsOnce(sum);
    if sum >= ADDRESSES { BelowOnePage(sum - ADDRESSES, g); }
  }

  lemma WrapsOnce(x: nat)
    requires x < 2 * ADDRESSES
    ensures x % ADDRESSES == if x < ADDRESSES then x else x - ADDRESSES
  {
  }

  lemma BelowOnePage(x: nat, g: nat)
    requires x < g
    ensures Floor(x, g) == 0
  {
    assert x / g == 0;
  }

  /** The part of the addresses from `a` that lies in a range, as `part_of` has it. */
  function PartOf(r: Range, a: nat, len: nat, g: nat): (int, int)
    requires 0 < g
  {
    Clip(r, a, Rounded(len, g))
  }

  function Clip(r: Range, a: nat, n: nat): (int, int) {
    var b := (a + n) % ADDRESSES;
    (if a < r.base then r.base else a, if b > r.End() then r.End() else b)
  }

  /** No sum of the call wraps. */
  predicate NoWrap(a: nat, len: nat, g: nat)
    requires 0 < g
  {
    len + g - 1 < ADDRESSES && a + Ceiling(len, g) < ADDRESSES
  }

  /** What is taken from a range lies in it, behind the address given: for every length, however the
      sums wrap. */
  lemma PartLiesInside(r: Range, a: nat, len: nat, g: nat)
    requires 0 < g
    ensures var (lo, hi) := PartOf(r, a, len, g); a <= lo && r.base <= lo && hi <= r.End()
  {
  }

  /** It is all the pages asked for of that range, exactly when no sum wraps; when one does, it is
      nothing. */
  lemma PartIsAllAsked(r: Range, a: nat, len: nat, g: nat)
    requires IsGrain(g) && r.Real() && r.Holds(a) && len < ADDRESSES
    ensures var (lo, hi) := PartOf(r, a, len, g);
      var end := a + Ceiling(len, g);
      && (NoWrap(a, len, g) <==> lo == a && hi == if end < r.End() then end else r.End())
      && (!NoWrap(a, len, g) ==> hi <= lo)
  {
    RoundedWraps(len, g);
    LongIsAll(len, g);
    ClipIsAll(r, a, len + g - 1, Ceiling(len, g), Rounded(len, g));
  }

  /** Here: two pages, and a length that rounds up past the last address. */
  lemma WrapsToNothing()
    ensures var r, a, len, g := Range(4096, 8192), 4096, ADDRESSES - 1, 4096;
      IsGrain(g) && r.Real() && r.Holds(a) && !NoWrap(a, len, g) && PartOf(r, a, len, g).1 <= PartOf(r, a, len, g).0
  {
    assert ADDRESSES / 4096 * 4096 == ADDRESSES;
    PartIsAllAsked(Range(4096, 8192), 4096, ADDRESSES - 1, 4096);
  }

  lemma ClipIsAll(r: Range, a: nat, sum: nat, c: nat, n: nat)
    requires r.Real() && r.Holds(a) && c <= sum && n == (if sum < ADDRESSES then c else 0)
    requires c < 2 * ADDRESSES && (sum >= ADDRESSES ==> r.End() < a + c)
    ensures var (lo, hi) := Clip(r, a, n);
      && (sum < ADDRESSES && a + c < ADDRESSES <==> lo == a && hi == if a + c < r.End() then a + c else r.End())
      && (!(sum < ADDRESSES && a + c < ADDRESSES) ==> hi <= lo)
  {
  }
}
