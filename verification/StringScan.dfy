/**
  The functions that look for a byte. They read whole vectors, past the byte they look for, but
  never a page that holds no byte of their argument.
*/
module StringScan {
  import opened Memory
  import opened Vectors

  const PAGE := 4096

  function PageStart(a: nat): nat { a - a % PAGE }

  function PageEnd(a: nat): nat { a - a % PAGE + PAGE }

  /** Memory is whole pages, up to the last of the address space, and the pages that hold the bytes from
      `lo` to `hi` may be read. */
  ghost predicate Pages(ram: Ram, lo: nat, hi: nat) {
    && ram.bytes.Length % PAGE == 0 && ram.bytes.Length <= ADDRESSES
    && lo < hi <= ram.bytes.Length && ram.Readable(PageStart(lo), PageEnd(hi - 1))
  }

  /** Loads a vector of which every byte shares a page with `x`, which the argument holds. */
  method LoadInPage(ram: Ram, p: nat, w: nat, ghost x: nat, ghost lo: nat, ghost hi: nat, ghost m: seq<Byte>)
    returns (v: Vector)
    requires m == ram.bytes[..] && Pages(ram, lo, hi) && lo <= x < hi && PageStart(x) <= p && p + w <= PageEnd(x)
    ensures p + w <= |m| && v == m[p..p + w]
  {
    PagesAreWhole(x, lo, hi, ram.bytes.Length);
    v := ram.Load(p, w);
  }

  lemma PagesAreWhole(x: nat, lo: nat, hi: nat, size: nat)
    requires lo <= x < hi <= size && size % PAGE == 0
    ensures PageStart(lo) <= PageStart(x) && PageEnd(x) <= PageEnd(hi - 1) <= size
  {
    assert lo / PAGE <= x / PAGE <= (hi - 1) / PAGE < size / PAGE;
  }

  /** A block at a multiple of its size lies in one page. */
  lemma BlockInPage(x: nat, w: nat)
    requires w == 8 || w == 16 || w == 32 || w == 64 || w == 128
    ensures PageStart(x) <= x - x % w && x - x % w + w <= PageEnd(x)
  {
    var g := x / PAGE;
    if w == 8 {
      assert 512 * g <= x / 8 < 512 * g + 512;
    } else if w == 16 {
      assert 256 * g <= x / 16 < 256 * g + 256;
    } else if w == 32 {
      assert 128 * g <= x / 32 < 128 * g + 128;
    } else if w == 64 {
      assert 64 * g <= x / 64 < 64 * g + 64;
    } else {
      assert 32 * g <= x / 128 < 32 * g + 32;
    }
  }

  /** The byte that is looked for, or the terminator when that ends the search too. */
  predicate Hit(b: Byte, c: Byte, nul: bool) { b == c || (nul && b == 0) }

  ghost predicate Clean(m: seq<Byte>, c: Byte, nul: bool, lo: int, hi: int) {
    forall a {:trigger Addr(a)} :: Addr(a) && lo <= a < hi && 0 <= a < |m| ==> !Hit(m[a], c, nul)
  }

  /** The vector that is zero where the search ends (`t16`, `t32`). */
  function Test(x: Vector, c: Byte, nul: bool): Vector {
    var t := Xor(x, Splat(c, |x|));
    if nul then Min(t, x) else t
  }

  function Stop(t: Vector): Mask { MaskOf(Eq(t, Splat(0, |t|))) }

  lemma StopIsHit(x: Vector, c: Byte, nul: bool)
    ensures |Stop(Test(x, c, nul))| == |x|
    ensures forall i :: 0 <= i < |x| ==> (Stop(Test(x, c, nul))[i] <==> Hit(x[i], c, nul))
  {
    forall i | 0 <= i < |x| ensures Stop(Test(x, c, nul))[i] <==> Hit(x[i], c, nul) {
      Lane(x[i], c);
    }
  }

  lemma Lane(x: Byte, c: Byte)
    ensures x ^ c == 0 <==> x == c
    ensures (if x ^ c < x then x ^ c else x) == 0 <==> x == c || x == 0
  {
  }

  /** The mask of a minimum has a lane exactly when the mask of one of the two has it. */
  lemma StopOfMin(a: Vector, b: Vector)
    requires |a| == |b|
    ensures |Stop(Min(a, b))| == |Stop(a)| == |Stop(b)| == |a|
    ensures forall i :: 0 <= i < |a| ==> (Stop(Min(a, b))[i] <==> Stop(a)[i] || Stop(b)[i])
  {
  }

  lemma AnyOfMin(a: Vector, b: Vector)
    requires |a| == |b|
    ensures Any(Stop(Min(a, b))) <==> Any(Stop(a)) || Any(Stop(b))
  {
    StopOfMin(a, b);
    var s, t, u := Stop(a), Stop(b), Stop(Min(a, b));
    assert Any(s) ==> u[First(s)];
    assert Any(t) ==> u[First(t)];
    assert Any(u) ==> s[First(u)] || t[First(u)];
  }

  /** A search: memory, where it starts, the address it stays below, the first hit there is (or the end of
      memory when there is none), and what it looks for. */
  datatype Search = Search(m: seq<Byte>, s: nat, end: nat, stop: nat, c: Byte, nul: bool) {
    /** The end of the argument: after the first hit, or the end given; its first byte is part of it. */
    function Hi(): nat { if stop < end then stop + 1 else if s < end then end else s + 1 }

    ghost predicate Right() {
      && s < |m| && s <= stop <= |m| && Clean(m, c, nul, s, stop)
      && (if stop < |m| then Hit(m[stop], c, nul) else end <= |m|)
    }
  }

  ghost predicate Argument(ram: Ram, g: Search)
    reads ram.bytes
  {
    g.m == ram.bytes[..] && g.Right() && Pages(ram, g.s, g.Hi())
  }

  /** An address, none, or a walk that has passed the top of the address space: the pointer becomes zero and
      the walk goes on from there, where this model does not follow it. */
  datatype Pointer = At(q: nat) | Null | Astray

  /** What a search owes. */
  function Answer(g: Search): Pointer { if g.stop < g.end then At(g.stop) else Null }

  predicate Found(g: Search, q: Pointer) { q == Answer(g) && g.stop < |g.m| }

  /** `FOUND16`: the first hit, unless it lies past the end. */
  function Below(q: nat, end: nat): Pointer { if q < end then At(q) else Null }

  lemma FoundAnswers(g: Search, q: nat)
    requires g.Right() && g.s <= q < |g.m| && Clean(g.m, g.c, g.nul, g.s, q) && Hit(g.m[q], g.c, g.nul)
    ensures Below(q, g.end) == Answer(g) && g.stop == q
  {
    assert Addr(q) && Addr(g.stop);
  }

  lemma NoneAnswers(g: Search, p: nat)
    requires g.Right() && Clean(g.m, g.c, g.nul, g.s, p) && p >= g.end
    ensures Answer(g) == Null
  {
    assert Addr(g.stop);
  }

  /** The first hit lies behind what has been looked through. */
  lemma NotPassed(g: Search, p: nat)
    requires g.Right() && g.stop < |g.m| && Clean(g.m, g.c, g.nul, g.s, p)
    ensures p <= g.stop
  {
    assert Addr(g.stop);
  }

  /** While nothing has been found, what is read next belongs to the argument. */
  lemma StillInside(g: Search, p: nat)
    requires g.Right() && g.s <= p && Clean(g.m, g.c, g.nul, g.s, p) && (p < g.end || p == g.s)
    ensures p < g.Hi()
  {
    assert Addr(g.stop);
  }

  /** What the mask of a vector says, from the lane at which it is looked at. */
  lemma MaskTells(g: Search, p: nat, off: nat, v: Vector, mask: Mask)
    requires p + |v| <= |g.m| && v == g.m[p..p + |v|] && off <= |v| && Clean(g.m, g.c, g.nul, g.s, p + off)
    requires |mask| == |v| && forall i :: 0 <= i < |v| ==> (mask[i] <==> Hit(v[i], g.c, g.nul))
    ensures var k := First(mask[off..]);
      && Clean(g.m, g.c, g.nul, g.s, p + off + k)
      && (k < |v| - off ==> Hit(g.m[p + off + k], g.c, g.nul))
  {
    var k := First(mask[off..]);
    forall a {:trigger Addr(a)} | Addr(a) && g.s <= a < p + off + k && 0 <= a < |g.m| ensures !Hit(g.m[a], g.c, g.nul) {
      if p + off <= a {
        assert !mask[off..][a - p - off] && v[a - p] == g.m[a];
      }
    }
    if k < |v| - off {
      assert mask[off..][k] && v[off + k] == g.m[p + off + k];
    }
  }

  /** What a caller passes. */
  datatype Wanted = Wanted(c: Byte, nul: bool, end: nat)

  /** Looks through the mask of a vector that was loaded from `p`; the lanes below `off` do not
      count. */
  method Locate(t: Vector, p: nat, off: nat, k: Wanted, ghost v: Vector, ghost g: Search)
    returns (found: bool, q: Pointer)
    requires g.Right() && k == Wanted(g.c, g.nul, g.end)
    requires p + |v| <= |g.m| && v == g.m[p..p + |v|] && t == Test(v, g.c, g.nul)
    requires off <= |t| == |v| && g.s <= p + off && Clean(g.m, g.c, g.nul, g.s, p + off)
    ensures found ==> Found(g, q)
    ensures !found ==> Clean(g.m, g.c, g.nul, g.s, p + |v|)
  {
    StopIsHit(v, g.c, g.nul);
    ShiftedTells(g, p, off, v, Stop(t));
    var shifted := Stop(t)[off..];
    found := Any(shifted);
    q := if found then Below(p + off + First(shifted), k.end) else Null;
  }

  /** The first hit in a vector, or that there is none in it. */
  lemma {:induction false} ShiftedTells(g: Search, p: nat, off: nat, v: Vector, mask: Mask)
    requires g.Right() && p + |v| <= |g.m| && v == g.m[p..p + |v|] && off <= |v|
    requires g.s <= p + off && Clean(g.m, g.c, g.nul, g.s, p + off)
    requires |mask| == |v| && forall i :: 0 <= i < |v| ==> (mask[i] <==> Hit(v[i], g.c, g.nul))
    ensures var shifted := mask[off..];
      && (Any(shifted) ==> Found(g, Below(p + off + First(shifted), g.end)))
      && (!Any(shifted) ==> Clean(g.m, g.c, g.nul, g.s, p + |v|))
  {
    MaskTells(g, p, off, v, mask);
    var k := First(mask[off..]);
    if k < |v| - off { FoundAnswers(g, p + off + k); }
  }

  /** One vector at an address `p` that shares a page with `x`. */
  method ScanVector(ram: Ram, p: nat, w: nat, off: nat, k: Wanted, ghost x: nat, ghost g: Search)
    returns (found: bool, q: Pointer)
    requires Argument(ram, g) && k == Wanted(g.c, g.nul, g.end)
    requires g.s <= p + off && off <= w && Clean(g.m, g.c, g.nul, g.s, p + off)
    requires g.s <= x < g.Hi() && PageStart(x) <= p && p + w <= PageEnd(x)
    ensures found ==> Found(g, q)
    ensures !found ==> Clean(g.m, g.c, g.nul, g.s, p + w)
  {
    var v := LoadInPage(ram, p, w, x, g.s, g.Hi(), g.m);
    found, q := Locate(Test(v, k.c, k.nul), p, off, k, v, g);
  }

  lemma WholeMask(t: Vector)
    ensures Stop(t)[0..] == Stop(t)
  {
  }

  /** Four vectors that follow one another. */
  ghost predicate Four(m: seq<Byte>, p: nat, w: nat, x0: Vector, x1: Vector, x2: Vector, x3: Vector) {
    && p + 4 * w <= |m| && |x0| == |x1| == |x2| == |x3| == w
    && x0 == m[p..p + w] && x1 == m[p + w..p + 2 * w] && x2 == m[p + 2 * w..p + 3 * w] && x3 == m[p + 3 * w..p + 4 * w]
  }

  method LoadFour(ram: Ram, p: nat, w: nat, ghost x: nat, ghost lo: nat, ghost hi: nat, ghost m: seq<Byte>)
    returns (x0: Vector, x1: Vector, x2: Vector, x3: Vector)
    requires m == ram.bytes[..] && Pages(ram, lo, hi) && lo <= x < hi && PageStart(x) <= p && p + 4 * w <= PageEnd(x)
    ensures Four(m, p, w, x0, x1, x2, x3)
  {
    x0 := LoadInPage(ram, p, w, x, lo, hi, m);
    x1 := LoadInPage(ram, p + w, w, x, lo, hi, m);
    x2 := LoadInPage(ram, p + 2 * w, w, x, lo, hi, m);
    x3 := LoadInPage(ram, p + 3 * w, w, x, lo, hi, m);
  }

  /** Whether any of four vectors stops the search, by one comparison. */
  method AnyOfFour(t0: Vector, t1: Vector, t2: Vector, t3: Vector) returns (b: bool)
    requires |t0| == |t1| == |t2| == |t3|
    ensures b <==> Any(Stop(t0)) || Any(Stop(t1)) || Any(Stop(t2)) || Any(Stop(t3))
  {
    AnyOfMin(t0, t1);
    AnyOfMin(t2, t3);
    AnyOfMin(Min(t0, t1), Min(t2, t3));
    b := Any(Stop(Min(Min(t0, t1), Min(t2, t3))));
  }

  /** A vector that does not stop the search. */
  lemma NoneHere(g: Search, p: nat, v: Vector, t: Vector)
    requires p + |v| <= |g.m| && v == g.m[p..p + |v|] && t == Test(v, g.c, g.nul) && !Any(Stop(t))
    requires Clean(g.m, g.c, g.nul, g.s, p)
    ensures Clean(g.m, g.c, g.nul, g.s, p + |v|)
  {
    StopIsHit(v, g.c, g.nul);
    WholeMask(t);
    MaskTells(g, p, 0, v, Stop(t));
  }

  /** Four vectors of a block that lies in one page, tested together and told apart afterwards. */
  method ScanBlock(ram: Ram, p: nat, w: nat, k: Wanted, ghost g: Search) returns (found: bool, q: Pointer)
    requires Argument(ram, g) && k == Wanted(g.c, g.nul, g.end)
    requires g.s <= p < g.Hi() && Clean(g.m, g.c, g.nul, g.s, p) && p + 4 * w <= PageEnd(p)
    ensures found ==> Found(g, q)
    ensures !found ==> Clean(g.m, g.c, g.nul, g.s, p + 4 * w)
  {
    var x0, x1, x2, x3 := LoadFour(ram, p, w, p, g.s, g.Hi(), g.m);
    found, q := Tell(x0, x1, x2, x3, p, w, k, g);
  }

  method Tell(x0: Vector, x1: Vector, x2: Vector, x3: Vector, p: nat, w: nat, k: Wanted, ghost g: Search)
    returns (found: bool, q: Pointer)
    requires g.Right() && k == Wanted(g.c, g.nul, g.end)
    requires g.s <= p && Clean(g.m, g.c, g.nul, g.s, p) && Four(g.m, p, w, x0, x1, x2, x3)
    ensures found ==> Found(g, q)
    ensures !found ==> Clean(g.m, g.c, g.nul, g.s, p + 4 * w)
  {
    var t0, t1, t2, t3 := Test(x0, k.c, k.nul), Test(x1, k.c, k.nul), Test(x2, k.c, k.nul), Test(x3, k.c, k.nul);
    found := AnyOfFour(t0, t1, t2, t3);
    if found {
      found, q := TellApart(t0, t1, t2, t3, p, w, k, x0, x1, x2, x3, g);
    } else {
      q := Null;
      NoneInFour(t0, t1, t2, t3, p, w, x0, x1, x2, x3, g);
    }
  }

  lemma NoneInFour(t0: Vector, t1: Vector, t2: Vector, t3: Vector, p: nat, w: nat,
                   x0: Vector, x1: Vector, x2: Vector, x3: Vector, g: Search)
    requires Clean(g.m, g.c, g.nul, g.s, p) && Four(g.m, p, w, x0, x1, x2, x3)
    requires t0 == Test(x0, g.c, g.nul) && t1 == Test(x1, g.c, g.nul) && t2 == Test(x2, g.c, g.nul)
    requires t3 == Test(x3, g.c, g.nul)
    requires !Any(Stop(t0)) && !Any(Stop(t1)) && !Any(Stop(t2)) && !Any(Stop(t3))
    ensures Clean(g.m, g.c, g.nul, g.s, p + 4 * w)
  {
    NoneHere(g, p, x0, t0);
    NoneHere(g, p + w, x1, t1);
    NoneHere(g, p + 2 * w, x2, t2);
    NoneHere(g, p + 3 * w, x3, t3);
  }

  method TellApart(t0: Vector, t1: Vector, t2: Vector, t3: Vector, p: nat, w: nat, k: Wanted,
                   ghost x0: Vector, ghost x1: Vector, ghost x2: Vector, ghost x3: Vector, ghost g: Search)
    returns (found: bool, q: Pointer)
    requires g.Right() && k == Wanted(g.c, g.nul, g.end)
    requires g.s <= p && Clean(g.m, g.c, g.nul, g.s, p) && Four(g.m, p, w, x0, x1, x2, x3)
    requires t0 == Test(x0, g.c, g.nul) && t1 == Test(x1, g.c, g.nul) && t2 == Test(x2, g.c, g.nul)
    requires t3 == Test(x3, g.c, g.nul)
    ensures found ==> Found(g, q)
    ensures !found ==> Clean(g.m, g.c, g.nul, g.s, p + 4 * w)
  {
    found, q := Locate(t0, p, 0, k, x0, g);
    if found { return; }
    found, q := Locate(t1, p + w, 0, k, x1, g);
    if found { return; }
    found, q := Locate(t2, p + 2 * w, 0, k, x2, g);
    if found { return; }
    found, q := Locate(t3, p + 3 * w, 0, k, x3, g);
  }

  predicate IsMultiple(p: nat, w: nat)
    requires w > 0
  {
    p % w == 0
  }

  lemma NextMultiple(p: nat, d: nat)
    requires (d == 16 || d == 32 || d == 64 || d == 128) && p % d == 0
    ensures (p + d) % d == 0
  {
  }

  lemma NextVector(p: nat, w: nat)
    requires (w == 16 || w == 32) && IsMultiple(p, w)
    ensures IsMultiple(p + w, w) && PageStart(p) <= p && p + w <= PageEnd(p)
  {
    BlockInPage(p, w);
    NextMultiple(p, w);
  }

  lemma NextBlock(p: nat, w: nat)
    requires (w == 16 || w == 32) && IsMultiple(p, 4 * w)
    ensures IsMultiple(p + 4 * w, 4 * w) && p + 4 * w <= PageEnd(p)
  {
    BlockInPage(p, 4 * w);
  }

  lemma FirstVector(s: nat, w: nat)
    requires w == 16 || w == 32
    ensures s % w < w && PageStart(s) <= s - s % w && s - s % w + w <= PageEnd(s) && IsMultiple(s - s % w + w, w)
  {
    BlockInPage(s, w);
  }

  /** The end of the block of such a size that holds an address. */
  function BlockEnd(a: nat, w: nat): nat
    requires w > 0
  {
    a - a % w + w
  }

  /** Whole blocks below an address, and the rest. */
  lemma Whole(a: nat, d: nat)
    requires d == 16 || d == 32 || d == 64 || d == 128
    ensures a == d * (a / d) + a % d && a % d < d && BlockEnd(a, d) == d * (a / d) + d
  {
  }

  /** Which of the blocks of such a size holds an address. */
  function Number(a: nat, d: nat): (i: nat)
    requires d == 16 || d == 32 || d == 64 || d == 128
    ensures d * i <= a < d * i + d && BlockEnd(a, d) == d * i + d && (IsMultiple(a, d) ==> a == d * i)
  {
    Whole(a, d);
    a / d
  }

  /** Of two multiples the smaller is smaller by one more of them at least. */
  lemma OneMore(d: nat, i: nat, k: nat)
    ensures d * i < d * k ==> d * i + d <= d * k
  {
    if i < k {
      assert d * (i + 1) == d * i + d;
      Times(d, i + 1, k);
    } else {
      Times(d, k, i);
    }
  }

  lemma Times(d: nat, x: nat, y: nat)
    requires x <= y
    ensures d * x <= d * y
  {
    assert d * y == d * x + d * (y - x);
  }

  /** The multiples around an address, by their numbers. */
  lemma Around16(a: nat, i: nat, j: nat, q: nat, r: nat)
    requires 64 * i <= a < 64 * i + 64 && 16 * j <= a && a < ADDRESSES
    ensures 64 * i + 64 <= ADDRESSES && 16 * j + 16 <= 64 * i + 64
    ensures 16 * q < 64 * i + 64 ==> 16 * q + 16 <= 64 * i + 64
    ensures a < 64 * r <= 64 * i + 64 ==> 64 * r == 64 * i + 64
  {
    OneMore(64, i, 0x400_0000_0000_0000);
    OneMore(16, j, 4 * i + 4);
    OneMore(16, q, 4 * i + 4);
    OneMore(64, i, r);
  }

  lemma InBlock16(a: nat, p: nat)
    requires a < ADDRESSES && IsMultiple(p, 16)
    ensures a < BlockEnd(a, 64) <= ADDRESSES && BlockEnd(a, 16) <= BlockEnd(a, 64)
    ensures p < BlockEnd(a, 64) ==> p + 16 <= BlockEnd(a, 64)
    ensures a < p <= BlockEnd(a, 64) && IsMultiple(p, 64) ==> p == BlockEnd(a, 64)
  {
    var i, j, q, r := Number(a, 64), Number(a, 16), Number(p, 16), Number(p, 64);
    Around16(a, i, j, q, r);
  }

  lemma Around32(a: nat, i: nat, j: nat, q: nat, r: nat)
    requires 128 * i <= a < 128 * i + 128 && 32 * j <= a && a < ADDRESSES
    ensures 128 * i + 128 <= ADDRESSES && 32 * j + 32 <= 128 * i + 128
    ensures 32 * q < 128 * i + 128 ==> 32 * q + 32 <= 128 * i + 128
    ensures a < 128 * r <= 128 * i + 128 ==> 128 * r == 128 * i + 128
  {
    OneMore(128, i, 0x200_0000_0000_0000);
    OneMore(32, j, 4 * i + 4);
    OneMore(32, q, 4 * i + 4);
    OneMore(128, i, r);
  }

  lemma InBlock32(a: nat, p: nat)
    requires a < ADDRESSES && IsMultiple(p, 32)
    ensures a < BlockEnd(a, 128) <= ADDRESSES && BlockEnd(a, 32) <= BlockEnd(a, 128)
    ensures p < BlockEnd(a, 128) ==> p + 32 <= BlockEnd(a, 128)
    ensures a < p <= BlockEnd(a, 128) && IsMultiple(p, 128) ==> p == BlockEnd(a, 128)
  {
    var i, j, q, r := Number(a, 128), Number(a, 32), Number(p, 32), Number(p, 128);
    Around32(a, i, j, q, r);
  }

  /** Blocks divide the address space, and the vectors of a block the block. */
  lemma InBlock(a: nat, p: nat, w: nat)
    requires (w == 16 || w == 32) && a < ADDRESSES && IsMultiple(p, w)
    ensures a < BlockEnd(a, 4 * w) <= ADDRESSES && BlockEnd(a, w) <= BlockEnd(a, 4 * w)
    ensures p < BlockEnd(a, 4 * w) ==> p + w <= BlockEnd(a, 4 * w)
    ensures a < p <= BlockEnd(a, 4 * w) && IsMultiple(p, 4 * w) ==> p == BlockEnd(a, 4 * w)
  {
    if w == 16 { InBlock16(a, p); } else { InBlock32(a, p); }
  }

  /** A walk from `a` that finds nothing comes to a place at or behind the end before it comes to the top. */
  predicate Stops(a: nat, end: nat, w: nat)
    requires w == 16 || w == 32
  {
    if BlockEnd(a, 4 * w) < ADDRESSES then end <= ADDRESSES - 4 * w
    else BlockEnd(a, w) < ADDRESSES && end <= ADDRESSES - w
  }

  /** What the walk comes to: it passes the top exactly when there is nothing to find up to there and no place
      to stop before. */
  function Outcome(g: Search, w: nat): Pointer
    requires w == 16 || w == 32
  {
    if g.stop < |g.m| || Stops(g.s, g.end, w) then Answer(g) else Astray
  }

  /** The walk has come to a place in the first block or at its end, or to the top. */
  ghost predicate Walks(g: Search, p: nat, w: nat)
    requires w == 16 || w == 32
  {
    && g.Right() && |g.m| <= ADDRESSES
    && g.s < p <= BlockEnd(g.s, 4 * w) <= ADDRESSES && IsMultiple(p, w) && Clean(g.m, g.c, g.nul, g.s, p)
    && if p == ADDRESSES then Outcome(g, w) == Astray else BlockEnd(g.s, w) < ADDRESSES
  }

  lemma FirstDone(g: Search, w: nat)
    requires (w == 16 || w == 32) && g.Right() && |g.m| <= ADDRESSES && Clean(g.m, g.c, g.nul, g.s, BlockEnd(g.s, w))
    ensures Walks(g, BlockEnd(g.s, w), w)
  {
    FirstVector(g.s, w);
    InBlock(g.s, BlockEnd(g.s, w), w);
    if BlockEnd(g.s, w) == ADDRESSES { NoneToTheTop(g); }
  }

  lemma VectorDone(g: Search, p: nat, w: nat)
    requires (w == 16 || w == 32) && Walks(g, p, w) && p < ADDRESSES && !IsMultiple(p, 4 * w)
    requires p < g.end && Clean(g.m, g.c, g.nul, g.s, p + w)
    ensures Walks(g, p + w, w)
  {
    NextVector(p, w);
    InBlock(g.s, p, w);
    BlockIsBlock(g.s, w);
    if p + w == ADDRESSES { NoneToTheTop(g); }
  }

  lemma BlockIsBlock(a: nat, w: nat)
    requires w == 16 || w == 32
    ensures IsMultiple(BlockEnd(a, 4 * w), 4 * w)
  {
    Whole(a, 4 * w);
  }

  lemma EndReached(g: Search, p: nat, w: nat)
    requires (w == 16 || w == 32) && Walks(g, p, w) && p < ADDRESSES && !IsMultiple(p, 4 * w) && g.end <= p
    ensures Outcome(g, w) == Null
  {
    NoneAnswers(g, p);
    InBlock(g.s, p, w);
    BlockIsBlock(g.s, w);
    BelowTheEnd(g.s, p, w);
  }

  /** A place in a block that is not the last lies below the last. */
  lemma BelowTheEnd(a: nat, p: nat, w: nat)
    requires (w == 16 || w == 32) && BlockEnd(a, 4 * w) <= ADDRESSES && p + w <= BlockEnd(a, 4 * w)
    ensures p <= ADDRESSES - w && (BlockEnd(a, 4 * w) < ADDRESSES ==> p <= ADDRESSES - 4 * w)
  {
    if BlockEnd(a, 4 * w) < ADDRESSES {
      BlockIsBlock(a, w);
      BelowTheTop(BlockEnd(a, 4 * w), w);
    }
  }

  /** The vector that holds the start, the lanes before it shifted out. */
  method ScanFirst(ram: Ram, s: nat, w: nat, k: Wanted, ghost g: Search) returns (found: bool, q: Pointer, p: nat)
    requires w == 16 || w == 32
    requires Argument(ram, g) && k == Wanted(g.c, g.nul, g.end) && s == g.s
    ensures if found then q == Outcome(g, w) else Walks(g, p, w)
  {
    var off := s % w;
    FirstVector(s, w);
    StillInside(g, s);
    found, q := ScanVector(ram, s - off, w, off, k, s, g);
    p := s - off + w;
    if !found { FirstDone(g, w); }
  }

  /** `scan16` and `scan32`: a vector at the multiple of its size below the start, of which the lanes
      before the start are shifted out; vectors up to a multiple of four; blocks of four. */
  method Scan(ram: Ram, s: nat, w: nat, k: Wanted, ghost g: Search) returns (q: Pointer)
    requires w == 16 || w == 32
    requires Argument(ram, g) && k == Wanted(g.c, g.nul, g.end) && s == g.s
    ensures q == Outcome(g, w)
  {
    var done, p;
    done, q, p := ScanFirst(ram, s, w, k, g);
    if done { return; }
    done, q, p := ScanVectors(ram, p, w, k, g);
    if done { return; }
    BelowTheTop(p, w);
    q := ScanBlocks(ram, p, w, k, g);
  }

  method ScanVectors(ram: Ram, from: nat, w: nat, k: Wanted, ghost g: Search) returns (done: bool, q: Pointer, p: nat)
    requires w == 16 || w == 32
    requires Argument(ram, g) && k == Wanted(g.c, g.nul, g.end) && Walks(g, from, w)
    ensures done ==> q == Outcome(g, w)
    ensures !done ==> Walks(g, p, w) && p < ADDRESSES && IsMultiple(p, 4 * w) && p == BlockEnd(g.s, 4 * w)
  {
    p, done, q := from, false, Null;
    while p < ADDRESSES && !IsMultiple(p, 4 * w)
      invariant Walks(g, p, w)
      decreases ADDRESSES - p
    {
      done, q := NextScanned(ram, p, w, k, g);
      if done { return; }
      p := p + w;
    }
    if p == ADDRESSES {
      return true, Astray, p;
    }
    InBlock(g.s, p, w);
  }

  /** One turn: the end is reached, or a hit found, or the walk goes on. */
  method NextScanned(ram: Ram, p: nat, w: nat, k: Wanted, ghost g: Search) returns (done: bool, q: Pointer)
    requires w == 16 || w == 32
    requires Argument(ram, g) && k == Wanted(g.c, g.nul, g.end)
    requires Walks(g, p, w) && p < ADDRESSES && !IsMultiple(p, 4 * w)
    ensures if done then q == Outcome(g, w) else Walks(g, p + w, w)
  {
    if p >= k.end {
      EndReached(g, p, w);
      return true, Null;
    }
    StillInside(g, p);
    NextVector(p, w);
    done, q := ScanVector(ram, p, w, 0, k, p, g);
    if !done { VectorDone(g, p, w); }
  }

  /** The walk has come to a block. */
  ghost predicate InBlocks(g: Search, p: nat, w: nat)
    requires w == 16 || w == 32
  {
    && g.Right() && |g.m| <= ADDRESSES
    && g.s < p <= ADDRESSES - 4 * w && IsMultiple(p, 4 * w) && Clean(g.m, g.c, g.nul, g.s, p)
  }

  lemma BlockDone(g: Search, p: nat, w: nat)
    requires (w == 16 || w == 32) && InBlocks(g, p, w) && Clean(g.m, g.c, g.nul, g.s, p + 4 * w)
    ensures if p + 4 * w == ADDRESSES then g.stop == |g.m| else InBlocks(g, p + 4 * w, w)
  {
    NextBlock(p, w);
    if p + 4 * w == ADDRESSES { NoneToTheTop(g); } else { BelowTheTop(p + 4 * w, w); }
  }

  /** Blocks from a multiple of their size on. */
  method ScanBlocks(ram: Ram, from: nat, w: nat, k: Wanted, ghost g: Search) returns (q: Pointer)
    requires w == 16 || w == 32
    requires Argument(ram, g) && k == Wanted(g.c, g.nul, g.end) && InBlocks(g, from, w)
    ensures q == if g.stop < |g.m| || g.end <= ADDRESSES - 4 * w then Answer(g) else Astray
  {
    var p := from;
    while p < k.end
      invariant InBlocks(g, p, w)
    {
      StillInside(g, p);
      NextBlock(p, w);
      var found;
      found, q := ScanBlock(ram, p, w, k, g);
      if found { return; }
      BlockDone(g, p, w);
      p := p + 4 * w;
      if p == ADDRESSES {
        return Astray;
      }
    }
    NoneAnswers(g, p);
    q := Null;
  }

  lemma NoneToTheTop(g: Search)
    requires g.Right() && |g.m| <= ADDRESSES && Clean(g.m, g.c, g.nul, g.s, ADDRESSES)
    ensures g.stop == |g.m|
  {
    assert Addr(g.stop);
  }

  lemma BelowTheTop(p: nat, w: nat)
    requires (w == 16 || w == 32) && IsMultiple(p, 4 * w) && p < ADDRESSES
    ensures p <= ADDRESSES - 4 * w
  {
    Whole(p, 4 * w);
  }

  /** The bytes from an address to the end of its page. */
  function ToPageEnd(p: nat): (n: nat)
    ensures p + n == PageEnd(p) && 0 < n <= PAGE
  {
    PAGE - p % PAGE
  }

  /** One vector of the argument, read where it is. */
  method ReadInPage(ram: Ram, s: nat, k: nat, w: nat, ghost g: Search) returns (x: Vector)
    requires Argument(ram, g) && s == g.s && k + w <= ToPageEnd(s)
    ensures s + k + w <= |g.m| && x == g.m[s + k..s + k + w]
  {
    StillInside(g, s);
    x := LoadInPage(ram, s + k, w, s, g.s, g.Hi(), g.m);
  }

  lemma EqIsHit(x: Vector, c: Byte)
    ensures |MaskOf(Eq(x, Splat(c, |x|)))| == |x|
    ensures forall i :: 0 <= i < |x| ==> (MaskOf(Eq(x, Splat(c, |x|)))[i] <==> Hit(x[i], c, false))
  {
  }

  lemma OrIsHit(x: Vector, c: Byte)
    ensures |MaskOf(Or(Eq(x, Splat(c, |x|)), Eq(x, Splat(0, |x|))))| == |x|
    ensures forall i :: 0 <= i < |x| ==>
      (MaskOf(Or(Eq(x, Splat(c, |x|)), Eq(x, Splat(0, |x|))))[i] <==> Hit(x[i], c, true))
  {
  }

  /** A vector read where it is, from its mask: the hit, or that there is none in it. */
  lemma {:induction false} FirstOf(g: Search, p: nat, v: Vector, mask: Mask)
    requires g.Right() && g.s <= p && p + |v| <= |g.m| && v == g.m[p..p + |v|] && Clean(g.m, g.c, g.nul, g.s, p)
    requires |mask| == |v| && forall i :: 0 <= i < |v| ==> (mask[i] <==> Hit(v[i], g.c, g.nul))
    ensures Any(mask) ==> Below(p + First(mask), g.end) == Answer(g) && First(mask) < |v| && g.stop == p + First(mask)
    ensures !Any(mask) ==> Clean(g.m, g.c, g.nul, g.s, p + |v|)
  {
    assert mask[0..] == mask;
    MaskTells(g, p, 0, v, mask);
    if Any(mask) {
      FoundAnswers(g, p + First(mask));
    }
  }

  /** The search that is left when some of it has been done, up to an address. */
  function Later(g: Search, p: nat, end: nat): Search { g.(s := p, end := end) }

  lemma LaterIsRight(ram: Ram, g: Search, p: nat, end: nat)
    requires Argument(ram, g) && g.s <= p < |g.m| && Clean(g.m, g.c, g.nul, g.s, p)
    requires p < g.end || (g.s < p == g.end == LAST)
    requires end == g.end || (end <= g.end && g.stop < |g.m|)
    ensures Argument(ram, Later(g, p, end))
  {
    assert Addr(g.stop);
    var h := Later(g, p, end);
    assert h.Right();
    LaterPages(g, p, end, ram.bytes.Length);
  }

  /** What is left lies in the pages of the argument. */
  lemma LaterPages(g: Search, p: nat, end: nat, size: nat)
    requires g.Right() && |g.m| == size && g.s <= p < |g.m| && p <= g.stop && size % PAGE == 0
    requires g.Hi() <= size <= ADDRESSES
    requires p < g.end || (g.s < p == g.end == LAST)
    requires end == g.end || (end <= g.end && g.stop < |g.m|)
    ensures PageStart(g.s) <= PageStart(p) && PageEnd(Later(g, p, end).Hi() - 1) <= PageEnd(g.Hi() - 1)
    ensures p < Later(g, p, end).Hi() <= size
  {
    var y := Later(g, p, end).Hi() - 1;
    if p < g.end {
      PagesAreWhole(p, g.s, g.Hi(), size);
      PagesAreWhole(y, g.s, g.Hi(), size);
    } else {
      PagesAreWhole(p - 1, g.s, g.Hi(), size);
    }
  }

  /** The last address there is, at which the functions take a search to end that has no end. */
  const LAST: nat := ADDRESSES - 1

  /** A string of such a length, the pages that hold it and its terminator readable. */
  ghost predicate IsString(ram: Ram, m: seq<Byte>, s: nat, len: nat)
    reads ram.bytes
  {
    m == ram.bytes[..] && s + len < |m| && m[s + len] == 0 && Clean(m, 0, false, s, s + len) &&
        Pages(ram, s, s + len + 1)
  }

  /** The multiples that the first loop goes through. */
  predicate Quarter(k: nat, w: nat) { k == 0 || k == w || k == 2 * w || k == 3 * w || k == 4 * w }

  /** One of the first four vectors, looked through for `c`. */
  method FindIn(ram: Ram, s: nat, k: nat, w: nat, c: Byte, ghost g: Search) returns (found: bool, i: nat)
    requires Argument(ram, g) && s == g.s && g.c == c && !g.nul && k + w <= ToPageEnd(s)
    requires Clean(g.m, c, false, s, s + k)
    ensures found ==> Below(s + k + i, g.end) == Answer(g) && i < w && g.stop == s + k + i < |g.m|
    ensures !found ==> Clean(g.m, c, false, s, s + k + w)
  {
    var x := ReadInPage(ram, s, k, w, g);
    var mask := MaskOf(Eq(x, Splat(c, w)));
    EqIsHit(x, c);
    FirstOf(g, s + k, x, mask);
    found, i := Any(mask), First(mask);
  }

  /** One of the first four vectors, looked through for `c` and for the terminator. */
  method CharIn(ram: Ram, s: nat, k: nat, w: nat, c: Byte, ghost g: Search) returns (found: bool, i: nat)
    requires Argument(ram, g) && s == g.s && g.c == c && g.nul && k + w <= ToPageEnd(s) && Clean(g.m, c, true, s, s + k)
    ensures found ==> Below(s + k + i, g.end) == Answer(g) && i < w && g.stop == s + k + i < |g.m|
    ensures !found ==> Clean(g.m, c, true, s, s + k + w)
  {
    var x := ReadInPage(ram, s, k, w, g);
    var mask := MaskOf(Or(Eq(x, Splat(c, w)), Eq(x, Splat(0, w))));
    OrIsHit(x, c);
    FirstOf(g, s + k, x, mask);
    found, i := Any(mask), First(mask);
  }

  /** The first four vectors of `strlen16`. */
  method LengthWithin(ram: Ram, s: nat, ghost g: Search) returns (found: bool, n: nat)
    requires Argument(ram, g) && s == g.s && g.c == 0 && !g.nul && ToPageEnd(s) >= 64
    ensures found ==> n < 64 && Below(s + n, g.end) == Answer(g)
    ensures !found ==> Clean(g.m, 0, false, s, s + 64)
  {
    var k := 0;
    while k < 64
      invariant Quarter(k, 16) && Clean(g.m, 0, false, s, s + k)
    {
      var hit, i := FindIn(ram, s, k, 16, 0, g);
      if hit {
        return true, k + i;
      }
      k := k + 16;
    }
    found, n := false, 0;
  }

  /** What the functions make of what a search for the terminator comes to: no address is zero. */
  function Away(q: Pointer, s: nat): nat { if q.At? && s <= q.q then q.q - s else (ADDRESSES - s) % ADDRESSES }

  /** The length that `strlen16` answers: a terminator in the last byte of the address space is not found,
      unless it is so among the first four vectors. */
  function Length16(s: nat, len: nat): nat {
    if s + len == LAST && len != 63 then (ADDRESSES - s) % ADDRESSES else len
  }

  lemma Length16Right(s: nat, len: nat)
    requires s + len <= LAST
    ensures Length16(s, len) == len <==> s + len < LAST || len == 63
  {
  }

  /** `strlen16`: every string, every start address. */
  method Strlen16(ram: Ram, s: nat, ghost len: nat) returns (n: nat)
    requires IsString(ram, ram.bytes[..], s, len)
    ensures n == Length16(s, len)
  {
    ghost var g := Search(ram.bytes[..], s, ADDRESSES, s + len, 0, false);
    var at := s;
    if s + len == LAST { FarFromTop(s, len); }
    if ToPageEnd(s) >= 64 {
      var found;
      found, n := LengthWithin(ram, s, g);
      if found { return; }
      assert Addr(g.stop);
      at := s + 64;
    }
    LaterIsRight(ram, g, at, LAST);
    var q := Scan(ram, at, 16, Wanted(0, false, LAST), Later(g, at, LAST));
    n := Away(q, s);
  }

  /** A string that ends at the top and is not short begins well before. */
  lemma FarFromTop(s: nat, len: nat)
    requires s + len == LAST
    ensures ToPageEnd(s) <= len + 1 && (len < PAGE ==> ToPageEnd(s) == len + 1)
  {
    assert ADDRESSES == PAGE * (ADDRESSES / PAGE);
    assert PageEnd(s) == PAGE * (s / PAGE + 1) <= ADDRESSES;
  }

  /** A vector of a string, tested against zero as it is. */
  lemma ZeroIn(g: Search, p: nat, v: Vector)
    requires g.Right() && g.c == 0 && !g.nul
    requires g.s <= p && p + |v| <= |g.m| && v == g.m[p..p + |v|] && Clean(g.m, 0, false, g.s, p)
    ensures Any(Stop(v)) ==> Below(p + First(Stop(v)), g.end) == Answer(g)
    ensures !Any(Stop(v)) ==> Clean(g.m, 0, false, g.s, p + |v|)
  {
    EqIsHit(v, 0);
    FirstOf(g, p, v, Stop(v));
  }

  lemma AnyOfThree(b: Vector, c: Vector, d: Vector)
    requires |b| == |c| == |d|
    ensures Any(Stop(Min(b, Min(c, d)))) <==> Any(Stop(b)) || Any(Stop(c)) || Any(Stop(d))
  {
    AnyOfMin(c, d);
    AnyOfMin(b, Min(c, d));
  }

  /** The terminator among the bytes from the 32nd to the 128th, or that it lies behind them. */
  method NextThree(ram: Ram, s: nat, ghost g: Search) returns (found: bool, n: nat)
    requires Argument(ram, g) && s == g.s && g.c == 0 && !g.nul && ToPageEnd(s) >= 128
    requires Clean(g.m, 0, false, s, s + 32)
    ensures found ==> Below(s + n, g.end) == Answer(g)
    ensures !found ==> Clean(g.m, 0, false, s, s + 128)
  {
    var b := ReadInPage(ram, s, 32, 32, g);
    var c := ReadInPage(ram, s, 64, 32, g);
    var d := ReadInPage(ram, s, 96, 32, g);
    ThreeTell(g, s, b, c, d);
    found, n := TellThree(b, c, d, s, g);
  }

  /** What one of the vectors says: the length, or that the string goes on behind it. */
  ghost predicate VectorTells(g: Search, s: nat, at: nat, v: Vector) {
    if Any(Stop(v)) then Below(s + at + First(Stop(v)), g.end) == Answer(g)
    else Clean(g.m, 0, false, s, s + at + 32)
  }

  /** What `strlen32` answers from three vectors, or that the string goes on behind them. */
  ghost predicate Tells(g: Search, s: nat, b: Vector, c: Vector, d: Vector) {
    && VectorTells(g, s, 32, b)
    && (!Any(Stop(b)) ==> VectorTells(g, s, 64, c))
    && (!Any(Stop(b)) && !Any(Stop(c)) ==> VectorTells(g, s, 96, d))
  }

  lemma ThreeTell(g: Search, s: nat, b: Vector, c: Vector, d: Vector)
    requires g.Right() && s == g.s && g.c == 0 && !g.nul && Clean(g.m, 0, false, s, s + 32) && s + 128 <= |g.m|
    requires b == g.m[s + 32..s + 64] && c == g.m[s + 64..s + 96] && d == g.m[s + 96..s + 128]
    ensures Tells(g, s, b, c, d)
  {
    OneTells(g, s, 32, b);
    if !Any(Stop(b)) { OneTells(g, s, 64, c); }
    if !Any(Stop(b)) && !Any(Stop(c)) { OneTells(g, s, 96, d); }
  }

  /** One vector of 32 bytes. */
  lemma OneTells(g: Search, s: nat, at: nat, v: Vector)
    requires g.Right() && s == g.s && g.c == 0 && !g.nul && s + at + 32 <= |g.m| && v == g.m[s + at..s + at + 32]
    requires Clean(g.m, 0, false, s, s + at)
    ensures VectorTells(g, s, at, v)
  {
    assert |v| == 32;
    ZeroIn(g, s + at, v);
  }

  method TellThree(b: Vector, c: Vector, d: Vector, s: nat, ghost g: Search) returns (found: bool, n: nat)
    requires |b| == |c| == |d| && Tells(g, s, b, c, d)
    ensures found ==> Below(s + n, g.end) == Answer(g)
    ensures !found ==> Clean(g.m, 0, false, s, s + 128)
  {
    AnyOfThree(b, c, d);
    if Any(Stop(Min(b, Min(c, d)))) {
      if Any(Stop(b)) { return true, 32 + First(Stop(b)); }
      if Any(Stop(c)) { return true, 64 + First(Stop(c)); }
      return true, 96 + First(Stop(d));
    }
    found, n := false, 0;
  }

  /** The length that `strlen32` answers: of a string that begins near the end of a page and ends in the last
      byte of the address space the terminator is not found. */
  function Length32(s: nat, len: nat): nat {
    if s + len == LAST && ToPageEnd(s) < 128 then (ADDRESSES - s) % ADDRESSES else len
  }

  lemma Length32Right(s: nat, len: nat)
    requires s + len <= LAST
    ensures Length32(s, len) == len <==> s + len < LAST || ToPageEnd(s) >= 128
  {
  }

  /** `strlen32`: the length of every string, but for one that begins near the end of a page and ends in the
      last byte there is. */
  method Strlen32(ram: Ram, s: nat, ghost len: nat) returns (n: nat)
    requires IsString(ram, ram.bytes[..], s, len)
    ensures n == Length32(s, len)
  {
    ghost var g := Search(ram.bytes[..], s, ADDRESSES, s + len, 0, false);
    var q;
    if ToPageEnd(s) >= 128 {
      var hit, i := FindIn(ram, s, 0, 32, 0, g);
      if hit { return i; }
      hit, i := NextThree(ram, s, g);
      if hit { return i; }
      q := ScanBehind(ram, s, g);
    } else {
      LaterIsRight(ram, g, s, LAST);
      q := Scan(ram, s, 32, Wanted(0, false, LAST), Later(g, s, LAST));
    }
    n := Away(q, s);
  }

  /** The blocks behind the first four vectors. */
  method ScanBehind(ram: Ram, s: nat, ghost g: Search) returns (q: Pointer)
    requires Argument(ram, g) && s == g.s && g.c == 0 && !g.nul && g.end == ADDRESSES && g.stop < |g.m|
    requires Clean(g.m, 0, false, s, s + 128)
    ensures q == Answer(g)
  {
    var from := s + 128 - (s + 128) % 128;
    BlockBoundary(s + 128);
    NotPassed(g, s + 128);
    BelowTheTop(from, 32);
    q := ScanBlocks(ram, from, 32, Wanted(0, false, ADDRESSES), g);
  }

  lemma BlockBoundary(a: nat)
    ensures IsMultiple(a - a % 128, 128) && a - 128 < a - a % 128 <= a
  {
    assert a - a % 128 == 128 * (a / 128);
  }

  /** Where `memchr` takes a block to end: the last byte of the address space is in none. */
  function EndOf(s: nat, n: nat): nat { if n > LAST - s then LAST else s + n }

  /** The first four vectors of `memchr16` and `memchr32`, of which no more are read than the length
      needs. */
  method FindWithin(ram: Ram, s: nat, w: nat, c: Byte, n: nat, end: nat, ghost g: Search)
    returns (found: bool, q: Pointer)
    requires w == 16 || w == 32
    requires Argument(ram, g) && s == g.s && g.c == c && !g.nul && ToPageEnd(s) >= 4 * w
    requires n > 0 && s <= LAST && end == g.end == EndOf(s, n)
    ensures found ==> q == Answer(g) && (g.stop < |g.m| || n <= 4 * w)
    ensures !found ==> Clean(g.m, c, false, s, s + 4 * w) && n > 4 * w
  {
    var k := 0;
    while k < 4 * w
      invariant Quarter(k, w) && Clean(g.m, c, false, s, s + k) && n > k
    {
      var hit, i := FindIn(ram, s, k, w, c, g);
      if hit {
        return true, Below(s + k + i, end);
      }
      if n <= k + w {
        NoneAnswers(g, s + k + w);
        return true, Null;
      }
      k := k + w;
    }
    found, q := false, Null;
  }

  /** The first `n` bytes at an address, looked through for `c`, which lies first at offset `k`, or
      nowhere in them when `k` is `n`; the pages that hold the bytes up to it are readable. */
  ghost predicate IsBlock(ram: Ram, m: seq<Byte>, s: nat, n: nat, c: Byte, k: nat)
    reads ram.bytes
  {
    && m == ram.bytes[..] && 0 < n < ADDRESSES && k <= n && Clean(m, c, false, s, s + k)
    && (k < n ==> s + k < |m| && m[s + k] == c) && Pages(ram, s, if k < n then s + k + 1 else s + n)
  }

  /** The first hit at or behind an address, or the end of memory. */
  ghost function FirstHit(m: seq<Byte>, c: Byte, nul: bool, a: nat): (r: nat)
    requires a <= |m|
    ensures a <= r <= |m| && Clean(m, c, nul, a, r) && (r < |m| ==> Hit(m[r], c, nul))
    decreases |m| - a
  {
    if a == |m| || Hit(m[a], c, nul) then a else FirstHit(m, c, nul, a + 1)
  }

  /** Where the search proper begins, behind the vectors that are read where they are. */
  function Behind(s: nat, w: nat): nat { if ToPageEnd(s) >= 4 * w then s + 4 * w else s }

  /** The walk of `memchr` passes the top: there is no such byte from the start of the block to the top, the
      length is not spent among the first four vectors, and there is no place to stop before. */
  ghost predicate Strays(m: seq<Byte>, s: nat, w: nat, c: Byte, n: nat)
    requires w == 16 || w == 32
  {
    Clean(m, c, false, s, |m|) && !(ToPageEnd(s) >= 4 * w && n <= 4 * w) && !Stops(Behind(s, w), EndOf(s, n), w)
  }

  /** What `memchr` answers. */
  ghost function Chr(m: seq<Byte>, s: nat, w: nat, c: Byte, n: nat, k: nat): Pointer
    requires w == 16 || w == 32
  {
    if n == 0 then Null
    else if Strays(m, s, w, c, n) then Astray
    else if k < n && s + k < LAST then At(s + k) else Null
  }

  /** It is right exactly when the byte it finds is not the last of the address space and, if it finds none,
      the walk does not pass the top. */
  lemma ChrRight(m: seq<Byte>, s: nat, w: nat, c: Byte, n: nat, k: nat)
    requires (w == 16 || w == 32) && k <= n && s + k <= |m| <= ADDRESSES && (k < n ==> s + k < |m| && m[s + k] == c)
    ensures Chr(m, s, w, c, n, k) == (if k < n then At(s + k) else Null) <==>
      if k < n then s + k < LAST else n == 0 || !Strays(m, s, w, c, n)
  {
    if k < n { assert Addr(s + k); }
  }

  /** So it is for every block that ends a block of four vectors or more before the top. */
  lemma FarBelowTheTop(m: seq<Byte>, s: nat, w: nat, c: Byte, n: nat)
    requires (w == 16 || w == 32) && 0 < n && s + n <= ADDRESSES - 4 * w
    ensures !Strays(m, s, w, c, n)
  {
    var a := Behind(s, w);
    if a < s + n {
      InBlock(a, 0, w);
      if w == 16 { InBlock16(a, ADDRESSES - 64); } else { InBlock32(a, ADDRESSES - 128); }
    }
  }

  /** `memchr16` and `memchr32`. */
  method Memchr(ram: Ram, s: nat, w: nat, c: Byte, n: nat, ghost k: nat) returns (q: Pointer)
    requires w == 16 || w == 32
    requires n != 0 ==> IsBlock(ram, ram.bytes[..], s, n, c, k)
    requires n == 0 ==> k == 0
    ensures q == Chr(ram.bytes[..], s, w, c, n, k)
  {
    if n == 0 { return Null; }
    ghost var m := ram.bytes[..];
    ghost var g := Search(m, s, EndOf(s, n), FirstHit(m, c, false, s + k), c, false);
    ThatIsTheSearch(ram, g, n, k);
    q := SearchBlock(ram, s, w, c, n, g);
  }

  method SearchBlock(ram: Ram, s: nat, w: nat, c: Byte, n: nat, ghost g: Search) returns (q: Pointer)
    requires w == 16 || w == 32
    requires Argument(ram, g) && s == g.s <= LAST && g.c == c && !g.nul && n > 0 && g.end == EndOf(s, n)
    requires g.stop < |g.m| || s + n <= |g.m|
    ensures q == if g.stop < |g.m| || (ToPageEnd(s) >= 4 * w && n <= 4 * w) || Stops(Behind(s, w), g.end, w)
        then Answer(g) else Astray
  {
    var end, at := EndOf(s, n), s;
    if ToPageEnd(s) >= 4 * w {
      var found;
      found, q := FindWithin(ram, s, w, c, n, end, g);
      if found { return; }
      assert Addr(g.stop);
      at := s + 4 * w;
    }
    q := SearchOn(ram, at, w, c, end, g);
  }

  /** The search of a block, as `memchr` takes it. */
  lemma {:induction false} ThatIsTheSearch(ram: Ram, g: Search, n: nat, k: nat)
    requires IsBlock(ram, g.m, g.s, n, g.c, k) && !g.nul && g.end == EndOf(g.s, n)
    requires g.s + k <= |g.m| && g.stop == FirstHit(g.m, g.c, false, g.s + k)
    ensures Argument(ram, g) && g.s <= LAST && (g.stop < |g.m| || g.s + n <= |g.m|)
    ensures Clean(g.m, g.c, false, g.s, |g.m|) <==> g.stop == |g.m|
    ensures Answer(g) == if k < n && g.s + k < LAST then At(g.s + k) else Null
  {
    if k < n { FoundFirst(g.m, g.c, g.s + k); }
    CleanOn(g.m, g.c, g.s, g.s + k, g.stop);
    AllClean(g);
    WhatIsAsked(g, n, k);
    PagesAsked(ram, g, n, k);
  }

  /** The answer and the extent of such a search. */
  lemma WhatIsAsked(g: Search, n: nat, k: nat)
    requires 0 < n && k <= n && !g.nul && g.end == EndOf(g.s, n) && g.s + k <= g.stop <= |g.m| <= ADDRESSES
    requires k < n ==> g.stop == g.s + k < |g.m|
    requires k == n ==> g.s + n <= |g.m|
    ensures g.s <= LAST && (g.stop == |g.m| ==> g.end <= |g.m|)
    ensures Answer(g) == if k < n && g.s + k < LAST then At(g.s + k) else Null
    ensures g.s < g.Hi() <= if k < n then g.s + k + 1 else g.s + n
  {
  }

  lemma PagesAsked(ram: Ram, g: Search, n: nat, k: nat)
    requires IsBlock(ram, g.m, g.s, n, g.c, k) && g.s < g.Hi() <= if k < n then g.s + k + 1 else g.s + n
    ensures Pages(ram, g.s, g.Hi())
  {
    PagesAreWhole(g.Hi() - 1, g.s, if k < n then g.s + k + 1 else g.s + n, ram.bytes.Length);
  }

  lemma {:induction false} FoundFirst(m: seq<Byte>, c: Byte, a: nat)
    requires a < |m| && m[a] == c
    ensures FirstHit(m, c, false, a) == a
  {
  }

  lemma CleanOn(m: seq<Byte>, c: Byte, lo: nat, mid: nat, hi: nat)
    requires Clean(m, c, false, lo, mid) && Clean(m, c, false, mid, hi)
    ensures Clean(m, c, false, lo, hi)
  {
  }

  lemma AllClean(g: Search)
    requires g.s <= g.stop <= |g.m| && Clean(g.m, g.c, false, g.s, g.stop)
    requires g.stop < |g.m| ==> Hit(g.m[g.stop], g.c, false)
    ensures Clean(g.m, g.c, false, g.s, |g.m|) <==> g.stop == |g.m|
  {
    assert Addr(g.stop);
  }

  method SearchOn(ram: Ram, at: nat, w: nat, c: Byte, end: nat, ghost g: Search) returns (q: Pointer)
    requires w == 16 || w == 32
    requires Argument(ram, g) && g.c == c && !g.nul && g.end == end && g.s <= at < |g.m|
    requires Clean(g.m, c, false, g.s, at)
    requires at < end || (g.s < at == end == LAST) || at == g.s
    ensures q == if g.stop < |g.m| || Stops(at, end, w) then Answer(g) else Astray
  {
    if at != g.s { LaterIsRight(ram, g, at, end); }
    q := Scan(ram, at, w, Wanted(c, false, end), Later(g, at, end));
  }

  /** The first four vectors of `strchr16` and `strchr32`. */
  method CharWithin(ram: Ram, s: nat, w: nat, c: Byte, ghost g: Search) returns (q: Pointer)
    requires w == 16 || w == 32
    requires Argument(ram, g) && s == g.s && g.c == c && g.nul && g.stop < g.end && ToPageEnd(s) >= 4 * w
    ensures q != Null ==> q == Answer(g) && g.stop < s + 4 * w
    ensures q == Null ==> Clean(g.m, c, true, s, s + 4 * w)
  {
    var k := 0;
    q := Null;
    while k < 4 * w && q == Null
      invariant Quarter(k, w)
      invariant q == Null ==> Clean(g.m, c, true, s, s + k)
      invariant q != Null ==> q == Answer(g) && g.stop < s + 4 * w
    {
      var hit, i := CharIn(ram, s, k, w, c, g);
      if hit {
        q := At(s + k + i);
      }
      k := k + w;
    }
  }

  /** A string up to its first `c`, or to its terminator when it has none: offset `k`. */
  ghost predicate IsStringTo(ram: Ram, m: seq<Byte>, s: nat, c: Byte, k: nat)
    reads ram.bytes
  {
    m == ram.bytes[..] && s + k < |m| && Hit(m[s + k], c, true) && Clean(m, c, true, s, s + k) &&
        Pages(ram, s, s + k + 1)
  }

  method LoadByte(ram: Ram, ghost x: nat, ghost lo: nat, ghost hi: nat, ghost m: seq<Byte>, q: Pointer)
    returns (b: Byte)
    requires m == ram.bytes[..] && Pages(ram, lo, hi) && lo <= x < hi && q == At(x)
    ensures x < |m| && b == m[x]
  {
    var v := LoadInPage(ram, q.q, 1, x, lo, hi, m);
    b := v[0];
  }

  /** The search of `strchr` ends in the last byte of the address space and is not over among the first four
      vectors. */
  predicate Missed(s: nat, w: nat, k: nat) { s + k == LAST && k != 4 * w - 1 }

  /** The search of `strchr16` and `strchr32`. */
  method CharSearch(ram: Ram, s: nat, w: nat, c: Byte, ghost g: Search) returns (q: Pointer)
    requires w == 16 || w == 32
    requires Argument(ram, g) && s == g.s && g.c == c && g.nul && g.stop < |g.m| && g.end == ADDRESSES
    ensures q == if Missed(s, w, g.stop - s) then Null else At(g.stop)
  {
    if g.stop == LAST { FarFromTop(s, g.stop - s); }
    var at := s;
    if ToPageEnd(s) >= 4 * w {
      q := CharWithin(ram, s, w, c, g);
      if q != Null { return; }
      assert Addr(g.stop);
      at := s + 4 * w;
    }
    LaterIsRight(ram, g, at, LAST);
    q := Scan(ram, at, w, Wanted(c, true, LAST), Later(g, at, LAST));
  }

  /** `strchr16` and `strchr32`: the byte or none; but not the last byte of the address space, unless it is
      found among the first four vectors. */
  method Strchr(ram: Ram, s: nat, w: nat, c: Byte, ghost k: nat) returns (q: Pointer)
    requires w == 16 || w == 32
    requires IsStringTo(ram, ram.bytes[..], s, c, k)
    ensures q == if ram.bytes[s + k] == c && !Missed(s, w, k) then At(s + k) else Null
  {
    ghost var g := Search(ram.bytes[..], s, ADDRESSES, s + k, c, true);
    q := CharSearch(ram, s, w, c, g);
    if q.At? {
      var x := LoadByte(ram, s + k, s, s + k + 1, g.m, q);
      if x != c {
        q := Null;
      }
    }
  }

  // --- where the functions are wrong ---

  /** A string of 99 bytes before the last of the address space: its terminator is not found. */
  lemma TerminatorMissed()
    ensures Length16(ADDRESSES - 100, 99) == 100 && Length32(ADDRESSES - 100, 99) == 100
    ensures Missed(ADDRESSES - 100, 16, 99) && Missed(ADDRESSES - 100, 32, 99)
  {
    assert PAGE * (ADDRESSES / PAGE) == ADDRESSES;
  }

  /** The last sixteen bytes of a memory of zeros, looked through for a one: the walk passes the top. */
  lemma WalksAstray(m: seq<Byte>)
    requires |m| == ADDRESSES && forall a :: 0 <= a < |m| ==> m[a] == 0
    ensures Chr(m, ADDRESSES - 16, 16, 1, 16, 16) == Astray
  {
    assert 16 * (ADDRESSES / 16) == ADDRESSES && PAGE * (ADDRESSES / PAGE) == ADDRESSES;
  }
}
