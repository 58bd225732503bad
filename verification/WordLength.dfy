/**
  `strlen` without vectors: words at multiples of eight, of which the first may begin before the string; its
  bytes up to there are masked so that they cannot end it.
*/
module WordLength {
  import opened Memory
  import opened Words
  import opened StringScan

  /** `(1 << 8 * off) - 1`. */
  function LowOnes(off: nat): bv64
    requires off < 8
  {
    match off
    case 0 => 0x0
    case 1 => 0xff
    case 2 => 0xffff
    case 3 => 0x00ff_ffff
    case 4 => 0xffff_ffff
    case 5 => 0x00ff_ffff_ffff
    case 6 => 0xffff_ffff_ffff
    case _ => 0x00ff_ffff_ffff_ffff
  }

  lemma OrBytes(x: bv64, m: bv64, y: bv64)
    requires y == x | m
    ensures y & 0xff == 0 <==> x & 0xff == 0 && m & 0xff == 0
    ensures (y >> 8) & 0xff == 0 <==> (x >> 8) & 0xff == 0 && (m >> 8) & 0xff == 0
    ensures (y >> 16) & 0xff == 0 <==> (x >> 16) & 0xff == 0 && (m >> 16) & 0xff == 0
    ensures (y >> 24) & 0xff == 0 <==> (x >> 24) & 0xff == 0 && (m >> 24) & 0xff == 0
    ensures (y >> 32) & 0xff == 0 <==> (x >> 32) & 0xff == 0 && (m >> 32) & 0xff == 0
    ensures (y >> 40) & 0xff == 0 <==> (x >> 40) & 0xff == 0 && (m >> 40) & 0xff == 0
    ensures (y >> 48) & 0xff == 0 <==> (x >> 48) & 0xff == 0 && (m >> 48) & 0xff == 0
    ensures (y >> 56) & 0xff == 0 <==> (x >> 56) & 0xff == 0 && (m >> 56) & 0xff == 0
  {
  }

  /** This word has ones in the lowest bytes, so many of them. */
  predicate Low(m: bv64, off: nat) {
    && (m & 0xff == 0 <==> off <= 0)
    && ((m >> 8) & 0xff == 0 <==> off <= 1)
    && ((m >> 16) & 0xff == 0 <==> off <= 2)
    && ((m >> 24) & 0xff == 0 <==> off <= 3)
    && ((m >> 32) & 0xff == 0 <==> off <= 4)
    && ((m >> 40) & 0xff == 0 <==> off <= 5)
    && ((m >> 48) & 0xff == 0 <==> off <= 6)
    && ((m >> 56) & 0xff == 0 <==> off <= 7)
  }

  lemma OnesAreLow(off: nat)
    requires off < 8
    ensures Low(LowOnes(off), off)
  {
  }

  /** The bytes below an offset made ones. */
  predicate Masked(v: seq<Byte>, off: nat, r: seq<Byte>) {
    |v| == |r| == 8 && forall i :: 0 <= i < 8 ==> (r[i] == 0 <==> v[i] == 0 && off <= i)
  }

  lemma OrWord(v: seq<Byte>, x: bv64, m: bv64, off: nat, y: bv64, r: seq<Byte>)
    requires Masked(v, off, r) && Zeroes(x, v) && Low(m, off) && y == x | m
    ensures Zeroes(y, r)
  {
    OrBytes(x, m, y);
  }

  /** The zero bytes of a word tell the zero bytes of memory, those before the string left out. */
  ghost predicate Seen(m: seq<Byte>, s: nat, w: nat, v: seq<Byte>) {
    && w + 8 <= |m| && |v| == 8
    && forall i :: 0 <= i < 8 ==> (v[i] == 0 <==> s <= w + i && m[w + i] == 0)
  }

  /** What a word says when it has a zero byte, and when it has none. */
  lemma SeenTells(g: Search, w: nat, v: seq<Byte>, i: nat)
    requires g.Right() && g.c == 0 && !g.nul && g.stop < g.end && Seen(g.m, g.s, w, v) && Clean(g.m, 0, false, g.s, w)
    requires i <= 8 && (i < 8 ==> v[i] == 0) && forall j :: 0 <= j < i ==> v[j] != 0
    ensures i < 8 ==> w + i == g.stop
    ensures i == 8 ==> Clean(g.m, 0, false, g.s, w + 8)
  {
    forall a {:trigger Addr(a)} | Addr(a) && g.s <= a < w + i && 0 <= a < |g.m| ensures !Hit(g.m[a], 0, false) {
      if w <= a {
        assert v[a - w] != 0;
      }
    }
    assert Clean(g.m, 0, false, g.s, w + i);
    if i < 8 {
      FoundAnswers(g, w + i);
    }
  }

  /** Loads the word at a multiple of eight that shares a page with `x`. */
  method LoadWord(ram: Ram, w: nat, ghost x: nat, ghost g: Search) returns (y: bv64, ghost v: seq<Byte>)
    requires Argument(ram, g) && g.s <= x < g.Hi() && PageStart(x) <= w && w + 8 <= PageEnd(x)
    ensures |v| == 8 && Zeroes(y, v) && w + 8 <= |g.m| && v == g.m[w..w + 8]
  {
    var b := LoadInPage(ram, w, 8, x, g.s, g.Hi(), g.m);
    y, v := Word(b), b;
    Octets(b, y);
    WordZeroes(y, b);
  }

  /** The number of bytes before the first zero of a word, eight when it has none. */
  method BeforeZero(x: bv64, ghost v: seq<Byte>) returns (i: nat)
    requires |v| == 8 && Zeroes(x, v)
    ensures i <= 8 && (i < 8 ==> v[i] == 0) && forall j :: 0 <= j < i ==> v[j] != 0
  {
    HasZeroTells(v, x);
    i := if HasZero(x) == 0 then 8 else TrailingZeros(HasZero(x)) / 8;
  }

  function MaskedBytes(v: seq<Byte>, off: nat): (r: seq<Byte>)
    requires |v| == 8
    ensures Masked(v, off, r)
  {
    seq(8, i requires 0 <= i < 8 => if i < off then 0xff else v[i])
  }

  /** A word, the bytes below an offset made ones. */
  method MaskWord(x: bv64, m: bv64, ghost off: nat, ghost v: seq<Byte>) returns (y: bv64)
    requires Low(m, off) && |v| == 8 && Zeroes(x, v)
    ensures Zeroes(y, MaskedBytes(v, off))
  {
    y := x | m;
    OrWord(v, x, m, off, y, MaskedBytes(v, off));
  }

  method MaskBelow(off: nat) returns (m: bv64)
    requires off < 8
    ensures Low(m, off)
  {
    m := LowOnes(off);
    OnesAreLow(off);
  }

  /** The first word, masked. */
  method FirstWord(ram: Ram, s: nat, off: nat, ghost g: Search) returns (i: nat, ghost v: seq<Byte>)
    requires Argument(ram, g) && s == g.s && off == s % 8
    ensures Seen(g.m, s, s - off, v) && i <= 8 && (i < 8 ==> v[i] == 0) && forall j :: 0 <= j < i ==> v[j] != 0
  {
    StillInside(g, s);
    BlockInPage(s, 8);
    var x, u := LoadWord(ram, s - off, s, g);
    var m := MaskBelow(off);
    var y := MaskWord(x, m, off, u);
    v := MaskedBytes(u, off);
    MaskedSeen(g.m, s, s - off, off, u, v);
    i := BeforeZero(y, v);
  }

  lemma MaskedSeen(m: seq<Byte>, s: nat, w: nat, off: nat, u: seq<Byte>, v: seq<Byte>)
    requires s == w + off && w + 8 <= |m| && u == m[w..w + 8] && Masked(u, off, v)
    ensures Seen(m, s, w, v)
  {
    forall i | 0 <= i < 8 ensures v[i] == 0 <==> s <= w + i && m[w + i] == 0 {
      assert u[i] == m[w + i];
    }
  }

  /** A word that lies wholly in the string or behind its start. */
  method NextWord(ram: Ram, w: nat, ghost g: Search) returns (i: nat, ghost v: seq<Byte>)
    requires Argument(ram, g) && g.s <= w < g.Hi() && w % 8 == 0
    ensures Seen(g.m, g.s, w, v) && i <= 8 && (i < 8 ==> v[i] == 0) && forall j :: 0 <= j < i ==> v[j] != 0
  {
    BlockInPage(w, 8);
    var x;
    x, v := LoadWord(ram, w, w, g);
    i := BeforeZero(x, v);
  }

  /** The word at `w` has been looked at: the terminator is its byte `i`, or lies behind it. */
  ghost predicate Looked(g: Search, w: nat, i: nat) {
    && w % 8 == 0 && w <= g.stop && g.s < w + 8 && i <= 8
    && if i < 8 then w + i == g.stop else Clean(g.m, 0, false, g.s, w + 8)
  }

  /** The search for the terminator of a string. */
  ghost predicate ForTerminator(g: Search) { g.Right() && g.c == 0 && !g.nul && g.stop < |g.m| <= g.end }

  lemma NextLooked(g: Search, w: nat)
    requires ForTerminator(g) && Looked(g, w, 8)
    ensures w + 8 <= g.stop && w + 8 < g.Hi() && (w + 8) % 8 == 0 && Clean(g.m, 0, false, g.s, w + 8)
  {
    NotPassed(g, w + 8);
    StillInside(g, w + 8);
  }

  /** The first word looked at. */
  method LookFirst(ram: Ram, s: nat, ghost g: Search) returns (w: nat, i: nat)
    requires Argument(ram, g) && s == g.s && ForTerminator(g)
    ensures Looked(g, w, i)
  {
    w := s - s % 8;
    ghost var v;
    i, v := FirstWord(ram, s, s % 8, g);
    SeenTells(g, w, v, i);
  }

  /** The word behind one without a terminator looked at. */
  method LookNext(ram: Ram, w: nat, ghost g: Search) returns (i: nat)
    requires Argument(ram, g) && ForTerminator(g) && Looked(g, w, 8)
    ensures w + 8 <= g.stop && Looked(g, w + 8, i)
  {
    NextLooked(g, w);
    ghost var v;
    i, v := NextWord(ram, w + 8, g);
    SeenTells(g, w + 8, v, i);
  }

  /** `strlen` by words: every string, every alignment. */
  method StrlenWords(ram: Ram, s: nat, ghost len: nat) returns (n: nat)
    requires IsString(ram, ram.bytes[..], s, len)
    ensures n == len
  {
    ghost var g := Search(ram.bytes[..], s, ADDRESSES, s + len, 0, false);
    var w: nat, i: nat := LookFirst(ram, s, g);
    while i == 8
      invariant Looked(g, w, i)
      decreases g.stop - w, i
    {
      i := LookNext(ram, w, g);
      w := w + 8;
    }
    n := w + i - s;
  }
}
