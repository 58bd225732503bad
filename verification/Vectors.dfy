/**
  Vectors of bytes, lane by lane, and the masks made of them. A mask is one truth a lane: a bit on
  x86_64, four bits on AArch64, and `First` is the count of its trailing zeros by lanes.
*/
module Vectors {
  import opened Memory

  type Vector = seq<Byte>
  type Mask = seq<bool>

  /** Lanes that are equal become 0xff, others zero. */
  function Eq(a: Vector, b: Vector): (e: Vector)
    requires |a| == |b|
  {
    seq(|a|, i requires 0 <= i < |a| => if a[i] == b[i] then 0xff else 0)
  }

  function And(a: Vector, b: Vector): (e: Vector)
    requires |a| == |b|
  {
    seq(|a|, i requires 0 <= i < |a| => a[i] & b[i])
  }

  function Or(a: Vector, b: Vector): (e: Vector)
    requires |a| == |b|
  {
    seq(|a|, i requires 0 <= i < |a| => a[i] | b[i])
  }

  function Xor(a: Vector, b: Vector): (e: Vector)
    requires |a| == |b|
  {
    seq(|a|, i requires 0 <= i < |a| => a[i] ^ b[i])
  }

  /** Lane by lane, whichever is less. */
  function Min(a: Vector, b: Vector): (e: Vector)
    requires |a| == |b|
  {
    seq(|a|, i requires 0 <= i < |a| => if a[i] < b[i] then a[i] else b[i])
  }

  function Splat(c: Byte, w: nat): (e: Vector) { seq(w, _ => c) }

  /** The highest bit of each lane, which is what the instruction takes. */
  function MaskOf(v: Vector): (m: Mask) { seq(|v|, i requires 0 <= i < |v| => v[i] & 0x80 != 0) }

  function Not(m: Mask): (r: Mask) { seq(|m|, i requires 0 <= i < |m| => !m[i]) }

  /** The first lane of a mask that is set; the number of lanes when none is. */
  function First(m: Mask): (i: nat)
    ensures i <= |m| && (i < |m| ==> m[i]) && forall j :: 0 <= j < i ==> !m[j]
  {
    if |m| == 0 || m[0] then 0 else 1 + First(m[1..])
  }

  predicate Any(m: Mask) { First(m) < |m| }

  predicate Full(m: Mask) { !Any(Not(m)) }
}
