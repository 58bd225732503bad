/**
  `memcmp16` and `memcmp32`: windows that overlap at the end, vectors compared together and told
  apart afterwards, and words of which the differing bits are counted.
*/
module MemoryCompare {
  import opened Memory
  import opened Words
  import opened Vectors

  /** Both ranges lie in memory and may be read. */
  ghost predicate Ranges(ram: Ram, l: nat, r: nat, n: nat) {
    l + n <= ram.bytes.Length && r + n <= ram.bytes.Length && ram.Readable(l, l + n) && ram.Readable(r, r + n)
  }

  /** The two ranges hold the same bytes from one offset to another. */
  ghost predicate Same(m: seq<Byte>, l: nat, r: nat, lo: int, hi: int) {
    forall k {:trigger Addr(k)} :: Addr(k) && lo <= k < hi && 0 <= k && l + k < |m| && r + k < |m| ==>
        m[l + k] == m[r + k]
  }

  /** At this offset they differ, and that is the difference. */
  ghost predicate Differ(m: seq<Byte>, l: nat, r: nat, k: int, v: int) {
    0 <= k && l + k < |m| && r + k < |m| && m[l + k] != m[r + k] && v == m[l + k] as int - m[r + k] as int
  }

  /** The answer `memcmp` owes: the difference of the first two bytes that differ, or zero. */
  ghost predicate Answers(m: seq<Byte>, l: nat, r: nat, n: nat, v: int) {
    if Same(m, l, r, 0, n) then v == 0
    else exists k {:trigger Addr(k)} :: Addr(k) && 0 <= k < n && Same(m, l, r, 0, k) && Differ(m, l, r, k, v)
  }

  /** The answer of a loop over the bytes. */
  function ByteAtATime(m: seq<Byte>, l: nat, r: nat, n: nat): int
    requires l + n <= |m| && r + n <= |m|
    decreases n
  {
    if n == 0 then 0
    else if m[l] != m[r] then m[l] as int - m[r] as int
    else ByteAtATime(m, l + 1, r + 1, n - 1)
  }

  /** A difference found in a window decides, when everything before the window is the same. */
  lemma Decides(m: seq<Byte>, l: nat, r: nat, n: nat, i: int, at: int, k: int, v: int)
    requires Same(m, l, r, 0, i) && at <= i && Same(m, l, r, at, k) && at <= k < n && Differ(m, l, r, k, v)
    ensures Answers(m, l, r, n, v)
  {
    assert Addr(k);
    assert Same(m, l, r, 0, k);
  }

  lemma {:induction false} RestAnswers(m: seq<Byte>, l: nat, r: nat, n: nat, i: nat)
    requires l + n <= |m| && r + n <= |m| && i <= n && Same(m, l, r, 0, i)
    ensures Answers(m, l, r, n, ByteAtATime(m, l + i, r + i, n - i))
    decreases n - i
  {
    if i < n {
      var v := ByteAtATime(m, l + i, r + i, n - i);
      if m[l + i] != m[r + i] {
        Decides(m, l, r, n, i, 0, i, v);
      } else {
        assert Same(m, l, r, 0, i + 1);
        RestAnswers(m, l, r, n, i + 1);
      }
    }
  }

  /** There is one such answer, and it is what a loop over the bytes gives. */
  lemma {:induction false} AnswersIsByteAtATime(m: seq<Byte>, l: nat, r: nat, n: nat, v: int)
    requires l + n <= |m| && r + n <= |m|
    ensures Answers(m, l, r, n, v) <==> v == ByteAtATime(m, l, r, n)
  {
    var u := ByteAtATime(m, l, r, n);
    assert Same(m, l, r, 0, 0);
    RestAnswers(m, l, r, n, 0);
    if Answers(m, l, r, n, v) { OneAnswer(m, l, r, n, u, v); }
  }

  lemma OneAnswer(m: seq<Byte>, l: nat, r: nat, n: nat, u: int, v: int)
    requires Answers(m, l, r, n, u) && Answers(m, l, r, n, v)
    ensures u == v
  {
    if !Same(m, l, r, 0, n) {
      var j, k := Where(m, l, r, n, u), Where(m, l, r, n, v);
      NotBefore(m, l, r, j, k, v);
      NotBefore(m, l, r, k, j, u);
    }
  }

  /** Where the ranges first differ, when they do. */
  ghost function Where(m: seq<Byte>, l: nat, r: nat, n: nat, v: int): (k: int)
    requires Answers(m, l, r, n, v) && !Same(m, l, r, 0, n)
    ensures 0 <= k < n && Same(m, l, r, 0, k) && Differ(m, l, r, k, v)
  {
    var k {:trigger Addr(k)} :| Addr(k) && 0 <= k < n && Same(m, l, r, 0, k) && Differ(m, l, r, k, v);
    k
  }

  lemma NotBefore(m: seq<Byte>, l: nat, r: nat, j: int, k: int, v: int)
    requires Same(m, l, r, 0, j) && Differ(m, l, r, k, v)
    ensures j <= k
  {
    assert Addr(k);
  }

  lemma Grow(m: seq<Byte>, l: nat, r: nat, i: int, at: int, hi: int)
    requires Same(m, l, r, 0, i) && at <= i && Same(m, l, r, at, hi)
    ensures Same(m, l, r, 0, hi)
  {
  }

  /** `l[k] - r[k]`. */
  method Subtract(ram: Ram, l: nat, r: nat, k: nat, ghost n: nat, ghost m: seq<Byte>) returns (v: int)
    requires Ranges(ram, l, r, n) && k < n && m == ram.bytes[..] && m[l + k] != m[r + k]
    ensures Differ(m, l, r, k, v)
  {
    var x := ram.Load(l + k, 1);
    var y := ram.Load(r + k, 1);
    v := x[0] as int - y[0] as int;
    assert x[0] == m[l + k] && y[0] == m[r + k];
  }

  /** Loads two windows, one of each range. */
  method LoadBoth(ram: Ram, l: nat, r: nat, at: nat, w: nat, ghost n: nat, ghost m: seq<Byte>)
    returns (a: seq<Byte>, b: seq<Byte>)
    requires Ranges(ram, l, r, n) && at + w <= n && m == ram.bytes[..]
    ensures l + at + w <= |m| && r + at + w <= |m| && a == m[l + at..l + at + w] && b == m[r + at..r + at + w]
  {
    a := ram.Load(l + at, w);
    b := ram.Load(r + at, w);
  }

  /** The ranges are the same up to the first lane of the mask, and there they differ. */
  ghost predicate Told(m: seq<Byte>, l: nat, r: nat, at: nat, mask: Mask) {
    && l + at + |mask| <= |m| && r + at + |mask| <= |m|
    && var k := First(mask);
       Same(m, l, r, at, at + k) && (k < |mask| ==> m[l + (at + k)] != m[r + (at + k)])
  }

  /** The lanes in which a vector of each differs. */
  method LoadMask(ram: Ram, l: nat, r: nat, at: nat, w: nat, ghost n: nat, ghost m: seq<Byte>) returns (mask: Mask)
    requires Ranges(ram, l, r, n) && at + w <= n && m == ram.bytes[..]
    ensures |mask| == w && Told(m, l, r, at, mask)
  {
    var a, b := LoadBoth(ram, l, r, at, w, n, m);
    mask := Not(MaskOf(Eq(a, b)));
    LanesTold(m, l, r, at, w, a, b);
  }

  /** One vector's worth at an offset, told by its mask (`DIFF16`, `DIFF32`). */
  method DiffAt(ram: Ram, l: nat, r: nat, at: nat, w: nat, ghost n: nat, ghost i: nat, ghost m: seq<Byte>)
    returns (found: bool, v: int)
    requires Ranges(ram, l, r, n) && at + w <= n && m == ram.bytes[..] && at <= i && Same(m, l, r, 0, i)
    ensures found ==> Answers(m, l, r, n, v)
    ensures !found ==> Same(m, l, r, 0, at + w)
  {
    var mask := LoadMask(ram, l, r, at, w, n, m);
    found, v := Any(mask), 0;
    if found {
      var k := at + First(mask);
      v := Subtract(ram, l, r, k, n, m);
      Decides(m, l, r, n, i, at, k, v);
    } else {
      Grow(m, l, r, i, at, at + w);
    }
  }

  /** What the mask of one window says. */
  lemma Lanes(m: seq<Byte>, l: nat, r: nat, at: nat, w: nat, a: seq<Byte>, b: seq<Byte>)
    requires l + at + w <= |m| && r + at + w <= |m| && a == m[l + at..l + at + w] && b == m[r + at..r + at + w]
    ensures var k := First(Not(MaskOf(Eq(a, b))));
      && Same(m, l, r, at, at + k) && (k < w ==> m[l + (at + k)] != m[r + (at + k)])
  {
    var mask := Not(MaskOf(Eq(a, b)));
    var k := First(mask);
    forall j | 0 <= j < w ensures mask[j] <==> m[l + at + j] != m[r + at + j] {
      assert a[j] == m[l + at + j] && b[j] == m[r + at + j];
    }
    forall j {:trigger Addr(j)} | Addr(j) && at <= j < at + k ensures m[l + j] == m[r + j] {
      assert !mask[j - at];
    }
  }

  lemma LanesTold(m: seq<Byte>, l: nat, r: nat, at: nat, w: nat, a: seq<Byte>, b: seq<Byte>)
    requires l + at + w <= |m| && r + at + w <= |m| && a == m[l + at..l + at + w] && b == m[r + at..r + at + w]
    ensures |Not(MaskOf(Eq(a, b)))| == w && Told(m, l, r, at, Not(MaskOf(Eq(a, b))))
  {
    Lanes(m, l, r, at, w, a, b);
  }

  /** The word that these bytes make; four bytes are the lower half of one. */
  function Widened(v: seq<Byte>): (x: seq<Byte>)
    requires |v| == 8 || |v| == 4
    ensures |x| == 8
  {
    if |v| == 8 then v else v + [0, 0, 0, 0]
  }

  /** A word of each, and what the bits in which they differ say. */
  method LoadWords(ram: Ram, l: nat, r: nat, at: nat, w: nat, ghost n: nat, ghost m: seq<Byte>)
    returns (x: bv64, y: bv64)
    requires w == 8 || w == 4
    requires Ranges(ram, l, r, n) && at + w <= n && m == ram.bytes[..]
    ensures l + at + w <= |m| && r + at + w <= |m|
    ensures x == y ==> Same(m, l, r, at, at + w)
    ensures x != y ==> x ^ y != 0 && var k := TrailingZeros(x ^ y) / 8;
      k < w && Same(m, l, r, at, at + k) && m[l + (at + k)] != m[r + (at + k)]
  {
    var a, b := LoadBoth(ram, l, r, at, w, n, m);
    x, y := Word(Widened(a)), Word(Widened(b));
    WordLanes(m, l, r, at, w, a, b, x, y);
  }

  /** One word's worth at an offset, told by the bits in which the two words differ. */
  method WordDiffAt(ram: Ram, l: nat, r: nat, at: nat, w: nat, ghost n: nat, ghost i: nat, ghost m: seq<Byte>)
    returns (found: bool, v: int)
    requires w == 8 || w == 4
    requires Ranges(ram, l, r, n) && at + w <= n && m == ram.bytes[..] && at <= i && Same(m, l, r, 0, i)
    ensures found ==> Answers(m, l, r, n, v)
    ensures !found ==> Same(m, l, r, 0, at + w)
  {
    var x, y := LoadWords(ram, l, r, at, w, n, m);
    found, v := x != y, 0;
    if found {
      var k := at + TrailingZeros(x ^ y) / 8;
      v := Subtract(ram, l, r, k, n, m);
      Decides(m, l, r, n, i, at, k, v);
    } else {
      Grow(m, l, r, i, at, at + w);
    }
  }

  /** What the differing bits of one window say. */
  lemma WordLanes(m: seq<Byte>, l: nat, r: nat, at: nat, w: nat, a: seq<Byte>, b: seq<Byte>, x: bv64, y: bv64)
    requires w == 8 || w == 4
    requires l + at + w <= |m| && r + at + w <= |m| && a == m[l + at..l + at + w] && b == m[r + at..r + at + w]
    requires x == Word(Widened(a)) && y == Word(Widened(b))
    ensures x == y ==> Same(m, l, r, at, at + w)
    ensures x != y ==> x ^ y != 0 && var k := TrailingZeros(x ^ y) / 8;
      k < w && Same(m, l, r, at, at + k) && m[l + (at + k)] != m[r + (at + k)]
  {
    Octets(Widened(a), x);
    Octets(Widened(b), y);
    FirstDifference(Widened(a), Widened(b), x, y);
    if x == y {
      assert forall j :: 0 <= j < w ==> a[j] == Widened(a)[j] && b[j] == Widened(b)[j];
      SameBytes(m, l, r, at, w, a, b, w);
    } else {
      var k := TrailingZeros(x ^ y) / 8;
      Narrowed(a, b, k);
      SameBytes(m, l, r, at, w, a, b, k);
    }
  }

  lemma Narrowed(a: seq<Byte>, b: seq<Byte>, k: nat)
    requires |a| == |b| && (|a| == 8 || |a| == 4) && FirstAt(Widened(a), Widened(b), k)
    ensures FirstAt(a, b, k)
  {
    forall j | 0 <= j < k && j < |a| ensures a[j] == b[j] {
      assert Widened(a)[j] == Widened(b)[j];
    }
  }

  lemma SameBytes(m: seq<Byte>, l: nat, r: nat, at: nat, w: nat, a: seq<Byte>, b: seq<Byte>, k: nat)
    requires l + at + w <= |m| && r + at + w <= |m| && a == m[l + at..l + at + w] && b == m[r + at..r + at + w]
    requires k <= w && forall j :: 0 <= j < k ==> a[j] == b[j]
    ensures Same(m, l, r, at, at + k)
  {
    forall j {:trigger Addr(j)} | Addr(j) && at <= j < at + k ensures m[l + j] == m[r + j] {
      assert a[j - at] == b[j - at];
    }
  }

  /** `cmp_small`, for fewer than sixteen bytes. */
  method CompareSmall(ram: Ram, l: nat, r: nat, n: nat, ghost m: seq<Byte>) returns (v: int)
    requires Ranges(ram, l, r, n) && n < 16 && m == ram.bytes[..]
    ensures Answers(m, l, r, n, v)
  {
    if n >= 4 {
      var w := if n >= 8 then 8 else 4;
      var found;
      found, v := WordDiffAt(ram, l, r, 0, w, n, 0, m);
      if found { return; }
      found, v := WordDiffAt(ram, l, r, n - w, w, n, w, m);
      if found { return; }
      return 0;
    }
    var i := 0;
    while i < n
      invariant i <= n && Same(m, l, r, 0, i)
    {
      var a, b := LoadBoth(ram, l, r, i, 1, n, m);
      if a[0] != b[0] {
        v := Subtract(ram, l, r, i, n, m);
        Decides(m, l, r, n, i, 0, i, v);
        return;
      }
      SameBytes(m, l, r, i, 1, a, b, 1);
      Grow(m, l, r, i, i, i + 1);
      i := i + 1;
    }
    v := 0;
  }

  /** Four windows that follow one another, told apart after a test that they are not all the same. */
  method DiffFour(ram: Ram, l: nat, r: nat, at: nat, w: nat, ghost n: nat, ghost i: nat, ghost m: seq<Byte>)
    returns (found: bool, v: int)
    requires Ranges(ram, l, r, n) && at + 4 * w <= n && m == ram.bytes[..] && at <= i && Same(m, l, r, 0, i)
    ensures found ==> Answers(m, l, r, n, v)
    ensures !found ==> Same(m, l, r, 0, at + 4 * w)
  {
    found, v := DiffAt(ram, l, r, at, w, n, i, m);
    if found { return; }
    found, v := DiffAt(ram, l, r, at + w, w, n, at + w, m);
    if found { return; }
    found, v := DiffAt(ram, l, r, at + 2 * w, w, n, at + 2 * w, m);
    if found { return; }
    found, v := DiffAt(ram, l, r, at + 3 * w, w, n, at + 3 * w, m);
  }

  /** The lanes in which two windows are equal, as a vector. */
  method EqualAt(ram: Ram, l: nat, r: nat, at: nat, w: nat, ghost n: nat, ghost m: seq<Byte>) returns (e: Vector)
    requires Ranges(ram, l, r, n) && at + w <= n && m == ram.bytes[..]
    ensures Equal(m, l, r, at, w, e)
  {
    var a, b := LoadBoth(ram, l, r, at, w, n, m);
    e := Eq(a, b);
    forall j | 0 <= j < w ensures e[j] & 0x80 != 0 ==> m[l + (at + j)] == m[r + (at + j)] {
      assert a[j] == m[l + (at + j)] && b[j] == m[r + (at + j)];
    }
  }

  /** A lane whose highest bit is set tells that the two ranges agree there. */
  ghost predicate Equal(m: seq<Byte>, l: nat, r: nat, at: nat, w: nat, e: Vector) {
    && |e| == w && l + at + w <= |m| && r + at + w <= |m|
    && forall j :: 0 <= j < w && e[j] & 0x80 != 0 ==> m[l + (at + j)] == m[r + (at + j)]
  }

  /** A full mask tells that the whole window agrees, and the mask of vectors taken together is full
      only when each is. */
  lemma AllEqual(m: seq<Byte>, l: nat, r: nat, i: int, at: nat, w: nat, e: Vector)
    requires Equal(m, l, r, at, w, e) && Full(MaskOf(e)) && at <= i && Same(m, l, r, 0, i)
    ensures Same(m, l, r, 0, at + w)
  {
    forall j {:trigger Addr(j)} | Addr(j) && at <= j < at + w ensures m[l + j] == m[r + j] {
      assert !Not(MaskOf(e))[j - at];
      assert m[l + (at + (j - at))] == m[r + (at + (j - at))];
    }
    assert Same(m, l, r, at, at + w);
    Grow(m, l, r, i, at, at + w);
  }

  lemma FullAnd(x: Vector, y: Vector)
    requires |x| == |y| && Full(MaskOf(And(x, y)))
    ensures Full(MaskOf(x)) && Full(MaskOf(y))
  {
    forall j | 0 <= j < |x| ensures !Not(MaskOf(x))[j] && !Not(MaskOf(y))[j] {
      assert !Not(MaskOf(And(x, y)))[j];
      HighBits(x[j], y[j]);
    }
  }

  lemma HighBits(x: Byte, y: Byte)
    requires (x & y) & 0x80 != 0
    ensures x & 0x80 != 0 && y & 0x80 != 0
  {
  }

  /** Four windows compared together. */
  method EqualFour(ram: Ram, l: nat, r: nat, p: nat, q: nat, s: nat, t: nat, w: nat, ghost n: nat, ghost m: seq<Byte>)
    returns (e: Vector)
    requires Ranges(ram, l, r, n) && m == ram.bytes[..]
    requires q <= p + w && s <= q + w && t <= s + w && p + w <= n && q + w <= n && s + w <= n && t + w <= n
    ensures |e| == w
    ensures Full(MaskOf(e)) ==> forall i: nat :: p <= i && Same(m, l, r, 0, i) ==> Same(m, l, r, 0, t + w)
  {
    var e0 := EqualAt(ram, l, r, p, w, n, m);
    var e1 := EqualAt(ram, l, r, q, w, n, m);
    var e2 := EqualAt(ram, l, r, s, w, n, m);
    var e3 := EqualAt(ram, l, r, t, w, n, m);
    e := And(And(And(e0, e1), e2), e3);
    if Full(MaskOf(e)) {
      FullAnd(And(And(e0, e1), e2), e3);
      FullAnd(And(e0, e1), e2);
      FullAnd(e0, e1);
      forall i: nat | p <= i && Same(m, l, r, 0, i) ensures Same(m, l, r, 0, t + w) {
        AllEqual(m, l, r, i, p, w, e0);
        AllEqual(m, l, r, p + w, q, w, e1);
        AllEqual(m, l, r, q + w, s, w, e2);
        AllEqual(m, l, r, s + w, t, w, e3);
      }
    }
  }

  /** The loops of `cmp16` and `cmp32`: four vectors together, then one at a time, then the last bytes
      by a vector that ends with them. */
  method CompareBlocks(ram: Ram, l: nat, r: nat, n: nat, w: nat, ghost m: seq<Byte>) returns (v: int)
    requires Ranges(ram, l, r, n) && 0 < w <= n && m == ram.bytes[..]
    ensures Answers(m, l, r, n, v)
  {
    var i, found := 0, false;
    while i + 4 * w <= n
      invariant i <= n && Same(m, l, r, 0, i)
    {
      var e := EqualFour(ram, l, r, i, i + w, i + 2 * w, i + 3 * w, w, n, m);
      if !Full(MaskOf(e)) {
        found, v := DiffFour(ram, l, r, i, w, n, i, m);
        if found { return; }
      }
      assert Same(m, l, r, 0, i + 4 * w);
      i := i + 4 * w;
    }
    while i + w <= n
      invariant i <= n && Same(m, l, r, 0, i)
    {
      found, v := DiffAt(ram, l, r, i, w, n, i, m);
      if found { return; }
      i := i + w;
    }
    if i < n {
      found, v := DiffAt(ram, l, r, n - w, w, n, i, m);
      if found { return; }
    }
    v := 0;
  }

  /** Two windows, one at either end. */
  method CompareEnds(ram: Ram, l: nat, r: nat, n: nat, w: nat, ghost m: seq<Byte>) returns (v: int)
    requires Ranges(ram, l, r, n) && w <= n <= 2 * w && m == ram.bytes[..]
    ensures Answers(m, l, r, n, v)
  {
    var found;
    found, v := DiffAt(ram, l, r, 0, w, n, 0, m);
    if found { return; }
    found, v := DiffAt(ram, l, r, n - w, w, n, w, m);
    if found { return; }
    v := 0;
  }

  /** `cmp16`, from sixteen bytes up. */
  method Compare16(ram: Ram, l: nat, r: nat, n: nat, ghost m: seq<Byte>) returns (v: int)
    requires Ranges(ram, l, r, n) && 16 <= n && m == ram.bytes[..]
    ensures Answers(m, l, r, n, v)
  {
    if n <= 32 {
      v := CompareEnds(ram, l, r, n, 16, m);
    } else {
      v := CompareBlocks(ram, l, r, n, 16, m);
    }
  }

  /** `cmp32`, above 32 bytes: up to eight vectors are compared together before they are told apart. */
  method Compare32(ram: Ram, l: nat, r: nat, n: nat, ghost m: seq<Byte>) returns (v: int)
    requires Ranges(ram, l, r, n) && 32 < n && m == ram.bytes[..]
    ensures Answers(m, l, r, n, v)
  {
    assert Same(m, l, r, 0, 0);
    if n <= 64 {
      var a := EqualAt(ram, l, r, 0, 32, n, m);
      var b := EqualAt(ram, l, r, n - 32, 32, n, m);
      if Full(MaskOf(And(a, b))) {
        FullAnd(a, b);
        AllEqual(m, l, r, 0, 0, 32, a);
        AllEqual(m, l, r, 32, n - 32, 32, b);
        return 0;
      }
      v := CompareEnds(ram, l, r, n, 32, m);
    } else if n <= 128 {
      v := CompareFour32(ram, l, r, n, m);
    } else if n <= 256 {
      v := CompareEight32(ram, l, r, n, m);
    } else {
      v := CompareBlocks(ram, l, r, n, 32, m);
    }
  }

  method CompareFour32(ram: Ram, l: nat, r: nat, n: nat, ghost m: seq<Byte>) returns (v: int)
    requires Ranges(ram, l, r, n) && 64 < n <= 128 && m == ram.bytes[..]
    ensures Answers(m, l, r, n, v)
  {
    assert Same(m, l, r, 0, 0);
    var e := EqualFour(ram, l, r, 0, 32, n - 64, n - 32, 32, n, m);
    if Full(MaskOf(e)) {
      return 0;
    }
    var found;
    found, v := DiffAt(ram, l, r, 0, 32, n, 0, m);
    if found { return; }
    found, v := DiffAt(ram, l, r, 32, 32, n, 32, m);
    if found { return; }
    found, v := DiffAt(ram, l, r, n - 64, 32, n, 64, m);
    if found { return; }
    found, v := DiffAt(ram, l, r, n - 32, 32, n, n - 32, m);
    if found { return; }
    v := 0;
  }

  method CompareEight32(ram: Ram, l: nat, r: nat, n: nat, ghost m: seq<Byte>) returns (v: int)
    requires Ranges(ram, l, r, n) && 128 < n <= 256 && m == ram.bytes[..]
    ensures Answers(m, l, r, n, v)
  {
    assert Same(m, l, r, 0, 0);
    var e := EqualFour(ram, l, r, 0, 32, 64, 96, 32, n, m);
    var f := EqualFour(ram, l, r, n - 128, n - 96, n - 64, n - 32, 32, n, m);
    if Full(MaskOf(And(e, f))) {
      FullAnd(e, f);
      assert Same(m, l, r, 0, 128);
      return 0;
    }
    var found;
    found, v := DiffFour(ram, l, r, 0, 32, n, 0, m);
    if found { return; }
    found, v := DiffFour(ram, l, r, n - 128, 32, n, 128, m);
    if found { return; }
    v := 0;
  }

  /** `memcmp16`. */
  method Memcmp16(ram: Ram, l: nat, r: nat, n: nat) returns (v: int)
    requires Ranges(ram, l, r, n)
    ensures Answers(ram.bytes[..], l, r, n, v)
  {
    if n < 16 {
      v := CompareSmall(ram, l, r, n, ram.bytes[..]);
    } else {
      v := Compare16(ram, l, r, n, ram.bytes[..]);
    }
  }

  /** `memcmp32`. */
  method Memcmp32(ram: Ram, l: nat, r: nat, n: nat) returns (v: int)
    requires Ranges(ram, l, r, n)
    ensures Answers(ram.bytes[..], l, r, n, v)
  {
    if n < 16 {
      v := CompareSmall(ram, l, r, n, ram.bytes[..]);
    } else if n <= 32 {
      v := CompareEnds(ram, l, r, n, 16, ram.bytes[..]);
    } else {
      v := Compare32(ram, l, r, n, ram.bytes[..]);
    }
  }
}
