/**
  `strcmp16` and `strcmp32`: the difference at the first place where two strings differ or end, from loads
  that stay within the pages of the one and of the other.
*/
module StringCompare {
  import opened Memory
  import opened Vectors
  import opened Words
  import opened StringScan

  /** Two strings in memory, and the first offset at which they differ or the first one ends. */
  datatype Pair = Pair(m: seq<Byte>, l: nat, r: nat, k: nat) {
    predicate Ends(j: nat) { l + j < |m| && r + j < |m| && (m[l + j] != m[r + j] || m[l + j] == 0) }

    ghost predicate Same(lo: int, hi: int) {
      forall j {:trigger Addr(j)} :: Addr(j) && 0 <= j && lo <= j < hi ==> !Ends(j)
    }

    ghost predicate Right() { Ends(k) && Same(0, k) }

    /** What `strcmp` owes. */
    function Answer(): int
      requires Ends(k)
    {
      m[l + k] as int - m[r + k] as int
    }
  }

  /** The pages that hold the two strings, up to where they are told apart, may be read. */
  ghost predicate Strings(ram: Ram, p: Pair)
    reads ram.bytes
  {
    p.m == ram.bytes[..] && p.Right() && Pages(ram, p.l, p.l + p.k + 1) && Pages(ram, p.r, p.r + p.k + 1)
  }

  /** The pages alone. */
  ghost predicate Mapped(ram: Ram, p: Pair)
    reads ram.bytes
  {
    p.m == ram.bytes[..] && Pages(ram, p.l, p.l + p.k + 1) && Pages(ram, p.r, p.r + p.k + 1)
  }

  lemma StillInside(p: Pair, i: nat)
    requires p.Right() && p.Same(0, i)
    ensures i <= p.k
  {
    assert Addr(p.k);
  }

  lemma TheEnd(p: Pair, i: nat)
    requires p.Right() && p.Same(0, i) && p.Ends(i)
    ensures i == p.k
  {
    assert Addr(p.k) && Addr(i);
  }

  /** So many bytes of both lie in the pages of the bytes at offset `i`. */
  predicate Room(p: Pair, i: nat, n: nat) { BothHave(p.l, p.r, i, n) }

  predicate BothHave(l: nat, r: nat, i: nat, n: nat) { n <= ToPageEnd(l + i) && n <= ToPageEnd(r + i) }

  lemma LessRoom(p: Pair, i: nat, n: nat, d: nat)
    requires Room(p, i, n) && d <= n
    ensures Room(p, i + d, n - d)
  {
    Advance(p.l + i, n, d);
    Advance(p.r + i, n, d);
  }

  lemma Advance(a: nat, n: nat, d: nat)
    requires n <= ToPageEnd(a) && d <= n
    ensures n - d <= ToPageEnd(a + d)
  {
    if d < ToPageEnd(a) {
      assert (a + d) / PAGE == a / PAGE;
    }
  }

  /** Loads at an offset, in the pages of the bytes at offset `i`. */
  method LoadBoth(ram: Ram, l: nat, r: nat, at: nat, w: nat, ghost i: nat, ghost n: nat, ghost p: Pair)
    returns (a: Vector, b: Vector)
    requires Mapped(ram, p) && p.l == l && p.r == r && i <= p.k && Room(p, i, n) && i <= at && at + w <= i + n
    ensures Loaded(p, at, w, a, b)
  {
    a, b := LoadTwo(ram, l, r, at, w, i, n, p.k, p.m);
  }

  method LoadTwo(ram: Ram, l: nat, r: nat, at: nat, w: nat, ghost i: nat, ghost n: nat, ghost k: nat,
                 ghost m: seq<Byte>) returns (a: Vector, b: Vector)
    requires m == ram.bytes[..] && Pages(ram, l, l + k + 1) && Pages(ram, r, r + k + 1) && i <= k
    requires BothHave(l, r, i, n) && i <= at && at + w <= i + n
    ensures Both(m, l, r, at, w, a, b)
  {
    a := LoadNear(ram, l, at, w, i, n, k, m);
    b := LoadNear(ram, r, at, w, i, n, k, m);
  }

  method LoadNear(ram: Ram, s: nat, at: nat, w: nat, ghost i: nat, ghost n: nat, ghost k: nat, ghost m: seq<Byte>)
    returns (v: Vector)
    requires m == ram.bytes[..] && Pages(ram, s, s + k + 1) && i <= k && n <= ToPageEnd(s + i) && i <= at
    requires at + w <= i + n
    ensures s + at + w <= |m| && v == m[s + at..s + at + w]
  {
    v := LoadInPage(ram, s + at, w, s + i, s, s + k + 1, m);
  }

  ghost predicate Loaded(p: Pair, at: nat, w: nat, a: Vector, b: Vector) { Both(p.m, p.l, p.r, at, w, a, b) }

  ghost predicate Both(m: seq<Byte>, l: nat, r: nat, at: nat, w: nat, a: Vector, b: Vector) {
    && l + at + w <= |m| && r + at + w <= |m| && |a| == |b| == w
    && a == m[l + at..l + at + w] && b == m[r + at..r + at + w]
  }

  /** The lanes in which the two differ or the first ends, in the two ways they are made: `STEP16` and
      `STEP32`. */
  function Mask16(a: Vector, b: Vector): Mask
    requires |a| == |b|
  {
    var e, z := MaskOf(Eq(a, b)), MaskOf(Eq(a, Splat(0, |a|)));
    seq(|a|, i requires 0 <= i < |a| => !e[i] || z[i])
  }

  function Zeros(a: Vector, b: Vector): Vector
    requires |a| == |b|
  {
    Min(a, Eq(a, b))
  }

  lemma BothMasks(a: Vector, b: Vector)
    requires |a| == |b|
    ensures Mask16(a, b) == Stop(Zeros(a, b))
    ensures forall i :: 0 <= i < |a| ==> (Mask16(a, b)[i] <==> a[i] != b[i] || a[i] == 0)
  {
    forall i | 0 <= i < |a| ensures Mask16(a, b)[i] == Stop(Zeros(a, b))[i] {
      Least(a[i]);
    }
  }

  lemma Least(x: Byte)
    ensures x < 0xff || x == 0xff
    ensures !(x < 0)
  {
  }

  lemma LaneEnds(p: Pair, at: nat, w: nat, a: Vector, b: Vector, i: nat)
    requires Loaded(p, at, w, a, b) && i < w
    ensures a[i] != b[i] || a[i] == 0 <==> p.Ends(at + i)
  {
    assert a[i] == p.m[p.l + (at + i)] && b[i] == p.m[p.r + (at + i)];
  }

  /** A mask has the lanes at which two strings are told apart. */
  ghost predicate Marks(p: Pair, at: nat, mask: Mask) { forall i :: 0 <= i < |mask| ==> (mask[i] <==> p.Ends(at + i)) }

  lemma LanesMark(p: Pair, at: nat, w: nat, a: Vector, b: Vector, mask: Mask)
    requires Loaded(p, at, w, a, b)
    requires |mask| == w && forall i :: 0 <= i < w ==> (mask[i] <==> a[i] != b[i] || a[i] == 0)
    ensures Marks(p, at, mask)
  {
    forall i | 0 <= i < w ensures mask[i] <==> p.Ends(at + i) { LaneEnds(p, at, w, a, b, i); }
  }

  /** No lane before the first that such a mask has tells the two apart, and that one does. */
  lemma {:induction false} FirstMarked(p: Pair, at: nat, mask: Mask)
    requires p.Same(0, at) && Marks(p, at, mask)
    ensures p.Same(0, at + First(mask)) && (First(mask) < |mask| ==> p.Ends(at + First(mask)))
  {
    var f := First(mask);
    forall j {:trigger Addr(j)} | Addr(j) && 0 <= j < at + f ensures !p.Ends(j) {
      if at <= j { assert !mask[j - at] && at + (j - at) == j; }
    }
  }

  /** What a mask of the two says. */
  lemma {:induction false} MaskTells(p: Pair, at: nat, w: nat, a: Vector, b: Vector, mask: Mask)
    requires p.Right() && p.Same(0, at) && Loaded(p, at, w, a, b)
    requires |mask| == w && forall i :: 0 <= i < w ==> (mask[i] <==> a[i] != b[i] || a[i] == 0)
    ensures Any(mask) ==> at + First(mask) == p.k
    ensures !Any(mask) ==> p.Same(0, at + w)
  {
    LanesMark(p, at, w, a, b, mask);
    FirstMarked(p, at, mask);
    if First(mask) < w { TheEnd(p, at + First(mask)); }
  }

  /** `l[k] - r[k]`. */
  method Subtract(ram: Ram, l: nat, r: nat, k: nat, ghost p: Pair) returns (v: int)
    requires Strings(ram, p) && p.l == l && p.r == r && k == p.k
    ensures v == p.Answer()
  {
    var a := LoadByte(ram, l + k, p.l, p.l + p.k + 1, p.m, At(l + k));
    var b := LoadByte(ram, r + k, p.r, p.r + p.k + 1, p.m, At(r + k));
    v := a as int - b as int;
  }

  /** One vector of each (`STEP16` with `w` sixteen, `STEP32` with `w` 32). */
  method Step(ram: Ram, l: nat, r: nat, at: nat, w: nat, ghost i: nat, ghost n: nat, ghost p: Pair)
    returns (found: bool, v: int)
    requires w == 16 || w == 32
    requires Strings(ram, p) && p.l == l && p.r == r && p.Same(0, at) && Room(p, i, n) && i <= at && at + w <= i + n
    ensures found ==> v == p.Answer()
    ensures !found ==> p.Same(0, at + w)
  {
    StillInside(p, i);
    var a, b := LoadBoth(ram, l, r, at, w, i, n, p);
    var mask := if w == 16 then Mask16(a, b) else Stop(Zeros(a, b));
    BothMasks(a, b);
    MaskTells(p, at, w, a, b, mask);
    found, v := Any(mask), 0;
    if found {
      v := Subtract(ram, l, r, at + First(mask), p);
    }
  }

  /** What one vector of each contributes to the test of four together. */
  method ZerosAt(ram: Ram, l: nat, r: nat, at: nat, w: nat, ghost i: nat, ghost n: nat, ghost p: Pair)
    returns (z: Vector)
    requires Strings(ram, p) && p.l == l && p.r == r && p.Same(0, i) && Room(p, i, n) && i <= at && at + w <= i + n
    ensures |z| == w && (!Any(Stop(z)) && p.Same(0, at) ==> p.Same(0, at + w))
  {
    StillInside(p, i);
    var a, b := LoadBoth(ram, l, r, at, w, i, n, p);
    z := Zeros(a, b);
    BothMasks(a, b);
    if !Any(Stop(z)) && p.Same(0, at) {
      MaskTells(p, at, w, a, b, Stop(z));
    }
  }

  /** Four vectors of each, tested together. */
  method ZerosInFour(ram: Ram, l: nat, r: nat, at: nat, w: nat, ghost n: nat, ghost p: Pair) returns (any: bool)
    requires Strings(ram, p) && p.l == l && p.r == r && p.Same(0, at) && Room(p, at, n) && 4 * w <= n
    ensures !any ==> p.Same(0, at + 4 * w)
  {
    var t0 := ZerosAt(ram, l, r, at, w, at, n, p);
    var t1 := ZerosAt(ram, l, r, at + w, w, at, n, p);
    var t2 := ZerosAt(ram, l, r, at + 2 * w, w, at, n, p);
    var t3 := ZerosAt(ram, l, r, at + 3 * w, w, at, n, p);
    any := AnyOfFour(t0, t1, t2, t3);
  }

  /** Four vectors, one after another. */
  method FourSteps(ram: Ram, l: nat, r: nat, at: nat, w: nat, ghost n: nat, ghost p: Pair) returns (found: bool, v: int)
    requires w == 16 || w == 32
    requires Strings(ram, p) && p.l == l && p.r == r && p.Same(0, at) && Room(p, at, n) && 4 * w <= n
    ensures found ==> v == p.Answer()
    ensures !found ==> p.Same(0, at + 4 * w)
  {
    found, v := Step(ram, l, r, at, w, at, n, p);
    if found { return; }
    found, v := Step(ram, l, r, at + w, w, at, n, p);
    if found { return; }
    found, v := Step(ram, l, r, at + 2 * w, w, at, n, p);
    if found { return; }
    found, v := Step(ram, l, r, at + 3 * w, w, at, n, p);
  }

  /** The vector loops of `strcmp16` and `strcmp32`, within the nearer page's end. */
  method VectorLoops(ram: Ram, l: nat, r: nat, from: nat, given: nat, w: nat, ghost p: Pair)
    returns (found: bool, v: int, i: nat, room: nat)
    requires w == 16 || w == 32
    requires Strings(ram, p) && p.l == l && p.r == r && p.Same(0, from) && Room(p, from, given)
    ensures found ==> v == p.Answer()
    ensures !found ==> p.Same(0, i) && Room(p, i, room) && i + room == from + given && i >= from
  {
    found, v, i, room := false, 0, from, given;
    while room >= 4 * w
      invariant p.Same(0, i) && Room(p, i, room) && i + room == from + given && i >= from && !found
    {
      var any := ZerosInFour(ram, l, r, i, w, room, p);
      if any {
        found, v := FourSteps(ram, l, r, i, w, room, p);
        if found { return; }
      }
      LessRoom(p, i, room, 4 * w);
      room, i := room - 4 * w, i + 4 * w;
    }
    while room >= w
      invariant p.Same(0, i) && Room(p, i, room) && i + room == from + given && i >= from && !found
    {
      found, v := Step(ram, l, r, i, w, i, room, p);
      if found { return; }
      LessRoom(p, i, room, w);
      room, i := room - w, i + w;
    }
  }

  method ByteStep(ram: Ram, l: nat, r: nat, i: nat, ghost n: nat, ghost p: Pair) returns (found: bool, v: int)
    requires Strings(ram, p) && p.l == l && p.r == r && p.Same(0, i) && Room(p, i, n) && n > 0
    ensures found ==> v == p.Answer()
    ensures !found ==> p.Same(0, i + 1)
  {
    StillInside(p, i);
    var a, b := LoadBoth(ram, l, r, i, 1, i, n, p);
    LaneEnds(p, i, 1, a, b, 0);
    found, v := a[0] != b[0] || a[0] == 0, 0;
    if found {
      TheEnd(p, i);
      v := Subtract(ram, l, r, i, p);
    }
  }

  /** Compares the bytes that are left before a page of either string ends. */
  method Bytewise(ram: Ram, l: nat, r: nat, from: nat, given: nat, ghost p: Pair) returns (found: bool, v: int, i: nat)
    requires Strings(ram, p) && p.l == l && p.r == r && p.Same(0, from) && Room(p, from, given)
    ensures found ==> v == p.Answer()
    ensures !found ==> p.Same(0, i) && i == from + given
  {
    var room := given;
    found, v, i := false, 0, from;
    while room > 0
      invariant p.Same(0, i) && Room(p, i, room) && i + room == from + given && !found
    {
      found, v := ByteStep(ram, l, r, i, room, p);
      if found { return; }
      LessRoom(p, i, room, 1);
      room, i := room - 1, i + 1;
    }
  }

  function Nearer(a: nat, b: nat): nat { if a < b then a else b }

  /** `strcmp16`, from an offset up to which the strings are the same. */
  method Strcmp16From(ram: Ram, l: nat, r: nat, from: nat, ghost p: Pair) returns (v: int)
    requires Strings(ram, p) && p.l == l && p.r == r && p.Same(0, from)
    ensures v == p.Answer()
  {
    var i, found := from, false;
    StillInside(p, i);
    while true
      invariant p.Same(0, i) && i <= p.k
      decreases p.k - i
    {
      var room := Nearer(ToPageEnd(l + i), ToPageEnd(r + i));
      found, v, i, room := VectorLoops(ram, l, r, i, room, 16, p);
      if found { return; }
      found, v, i := Bytewise(ram, l, r, i, room, p);
      if found { return; }
      StillInside(p, i);
    }
  }

  /** `strcmp16_first`: every pair of strings, at every pair of addresses. */
  method Strcmp16(ram: Ram, l: nat, r: nat, ghost p: Pair) returns (v: int)
    requires Strings(ram, p) && p.l == l && p.r == r
    ensures v == p.Answer()
  {
    var from := 0;
    if ToPageEnd(l) >= 64 && ToPageEnd(r) >= 64 {
      var found;
      found, v := FourSteps(ram, l, r, 0, 16, 64, p);
      if found { return; }
      from := 64;
    }
    v := Strcmp16From(ram, l, r, from, p);
  }

  /** One word of each: equal, and without a zero byte. */
  method WordsAgree(ram: Ram, l: nat, r: nat, at: nat, ghost n: nat, ghost p: Pair) returns (agree: bool)
    requires Strings(ram, p) && p.l == l && p.r == r && p.Same(0, at) && Room(p, at, n) && 8 <= n
    ensures agree ==> p.Same(0, at + 8)
  {
    StillInside(p, at);
    var a, b := LoadBoth(ram, l, r, at, 8, at, n, p);
    var x, y := Word(a), Word(b);
    agree := x == y && HasZero(x) == 0;
    if agree {
      Octets(a, x);
      Octets(b, y);
      FirstDifference(a, b, x, y);
      WordZeroes(x, a);
      HasZeroTells(a, x);
      NoneEnds(p, at, a, b);
    }
  }

  lemma NoneEnds(p: Pair, at: nat, a: Vector, b: Vector)
    requires p.Same(0, at) && Loaded(p, at, 8, a, b) && a == b && forall i :: 0 <= i < 8 ==> a[i] != 0
    ensures p.Same(0, at + 8)
  {
    forall j {:trigger Addr(j)} | Addr(j) && 0 <= j < at + 8 ensures !p.Ends(j) {
      if at <= j {
        LaneEnds(p, at, 8, a, b, j - at);
      }
    }
  }

  /** Passes the words that are the same in both strings and hold no terminator, as far as both pages go. */
  method Wordwise(ram: Ram, l: nat, r: nat, from: nat, given: nat, ghost p: Pair) returns (i: nat, room: nat)
    requires Strings(ram, p) && p.l == l && p.r == r && p.Same(0, from) && Room(p, from, given)
    ensures p.Same(0, i) && Room(p, i, room) && i + room == from + given && i >= from
  {
    i, room := from, given;
    while room >= 8
      invariant p.Same(0, i) && Room(p, i, room) && i + room == from + given && i >= from
    {
      var agree := WordsAgree(ram, l, r, i, room, p);
      if !agree { break; }
      LessRoom(p, i, room, 8);
      room, i := room - 8, i + 8;
    }
  }

  /** `strcmp32`, from an offset up to which the strings are the same. */
  method Strcmp32From(ram: Ram, l: nat, r: nat, from: nat, ghost p: Pair) returns (v: int)
    requires Strings(ram, p) && p.l == l && p.r == r && p.Same(0, from)
    ensures v == p.Answer()
  {
    var i, found := from, false;
    if (l + i) % 32 != 0 && ToPageEnd(l + i) >= 32 && ToPageEnd(r + i) >= 32 {
      found, v := Step(ram, l, r, i, 32, i, 32, p);
      if found { return; }
      i := i + 32 - (l + i) % 32;
    }
    StillInside(p, i);
    while true
      invariant p.Same(0, i) && i <= p.k
      decreases p.k - i
    {
      found, v, i := PageOn(ram, l, r, i, p);
      if found { return; }
    }
  }

  /** Up to the end of the nearer page and past it: vectors, words, bytes. */
  method PageOn(ram: Ram, l: nat, r: nat, from: nat, ghost p: Pair) returns (found: bool, v: int, i: nat)
    requires Strings(ram, p) && p.l == l && p.r == r && p.Same(0, from)
    ensures if found then v == p.Answer() else p.Same(0, i) && from < i <= p.k
  {
    i := from;
    var room := Nearer(ToPageEnd(l + i), ToPageEnd(r + i));
    found, v, i, room := VectorLoops(ram, l, r, i, room, 32, p);
    if found { return; }
    i, room := Wordwise(ram, l, r, i, room, p);
    found, v, i := Bytewise(ram, l, r, i, room, p);
    if !found { StillInside(p, i); }
  }

  /** `strcmp32_first`. */
  method Strcmp32(ram: Ram, l: nat, r: nat, ghost p: Pair) returns (v: int)
    requires Strings(ram, p) && p.l == l && p.r == r
    ensures v == p.Answer()
  {
    var from := 0;
    if ToPageEnd(l) >= 128 && ToPageEnd(r) >= 128 {
      var found;
      found, v := FourSteps(ram, l, r, 0, 32, 128, p);
      if found { return; }
      from := 128;
    }
    v := Strcmp32From(ram, l, r, from, p);
  }
}
