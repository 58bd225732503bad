/**
  Names in buffers: `normalise` and `join`, and what they have to do with
  the components of the names they are given. A C string is the sequence of its characters
  before the terminator; the buffers it is written into are arrays.
*/
module Names {
  import opened Options
  import opened Components

  const MAX_PATH: nat := 4096
  const ENAMETOOLONG: int := 36

  /** The characters of the text lie in the buffer from a place on. */
  ghost predicate Shows(buffer: array<char>, at: nat, s: Text)
    reads buffer
  {
    at + |s| <= buffer.Length && forall j :: 0 <= j < |s| ==> buffer[at + j] == s[j]
  }

  /** The buffer holds the text at a place, terminated: it is a string there. */
  ghost predicate Holds(buffer: array<char>, at: nat, s: Text)
    reads buffer
  {
    Shows(buffer, at, s) && at + |s| < buffer.Length && buffer[at + |s|] == '\0'
  }

  /** Every ordinary component finds room behind the stack it is pushed onto, for itself, a
      separator and a terminator. */
  ghost predicate Fits(cs: seq<Text>, cap: nat)
    decreases |cs|
  {
    cs != [] ==>
      var k := |cs| - 1;
      Fits(cs[..k], cap) && (Ordinary(cs[k]) ==> |Render(Stack(cs[..k]))| + |cs[k]| + 2 <= cap)
  }

  lemma {:induction false} FitsAppend(cs: seq<Text>, c: Text, cap: nat)
    ensures Fits(cs + [c], cap) <==> Fits(cs, cap) && (Ordinary(c) ==> |Render(Stack(cs))| + |c| + 2 <= cap)
  {
    assert (cs + [c])[..|cs|] == cs;
  }

  lemma {:induction false} FitsPrefix(cs: seq<Text>, more: seq<Text>, cap: nat)
    requires Fits(cs + more, cap)
    ensures Fits(cs, cap)
    decreases |more|
  {
    if more == [] {
      assert cs + more == cs;
    } else {
      var k := |more| - 1;
      assert cs + more == cs + more[..k] + [more[k]];
      FitsAppend(cs + more[..k], more[k], cap);
      FitsPrefix(cs, more[..k], cap);
    }
  }

  // ----- normalise -----

  /** Drops the last component of a rendering, and the separator before it. */
  method PopLast(out: array<char>, at: nat, o: nat, ghost st: seq<Text>) returns (p: nat)
    requires AllComponents(st) && Shows(out, at, Render(st)) && o == |Render(st)|
    ensures p == |Render(if st == [] then [] else st[..|st| - 1])| <= o
    ensures Shows(out, at, Render(if st == [] then [] else st[..|st| - 1]))
  {
    ghost var k := if st == [] then 0 else |st| - 1;
    ghost var text, rest := Render(st), Render(st[..k]);
    ghost var floor := if k == 0 then 0 else |rest| + 1;
    if st != [] {
      assert Component(st[k]);
      assert forall i :: floor <= i < o ==> text[i] == st[k][i - floor] && text[i] != '/';
    }
    p := o;
    while p > 0 && out[at + p - 1] != '/'
      invariant floor <= p <= o
    {
      assert out[at + (p - 1)] == text[p - 1];
      p := p - 1;
    }
    assert p > 0 ==> out[at + (p - 1)] == text[p - 1];
    if p > 0 { p := p - 1; }
    assert forall j :: 0 <= j < |rest| ==> rest[j] == text[j];
  }

  /** Puts a component behind a rendering, after a separator where there is one before it. */
  method PushLast(out: array<char>, at: nat, o: nat, cap: nat, c: Text, ghost st: seq<Text>) returns (p: nat)
    requires at + cap <= out.Length && o + |c| + 2 <= cap
    requires AllComponents(st) && Shows(out, at, Render(st)) && o == |Render(st)|
    modifies out
    ensures p == |Render(st + [c])| < cap && Shows(out, at, Render(st + [c]))
    ensures forall i :: 0 <= i < out.Length && !(at <= i < at + cap) ==> out[i] == old(out[i])
  {
    p := o;
    RenderAppend(st, c);
    if st != [] { RenderHead(st); }
    ghost var text := Render(st);
    if p != 0 { out[at + p] := '/'; p := p + 1; }
    ghost var head := if o == 0 then text else text + "/";
    var q := p;
    for i := 0 to |c|
      invariant p == q + i
      invariant Shows(out, at, head)
      invariant forall j :: 0 <= j < i ==> out[at + q + j] == c[j]
      invariant forall j :: 0 <= j < out.Length && !(at <= j < at + cap) ==> out[j] == old(out[j])
    {
      out[at + p] := c[i];
      p := p + 1;
    }
    forall j | 0 <= j < |head + c| ensures out[at + j] == (head + c)[j] {
      if j >= q { assert out[at + q + (j - q)] == c[j - q]; }
    }
  }

  /** The characters from one place to the other are no separators, and there they end. */
  ghost predicate IsRun(path: Text, s: nat, e: nat) {
    s <= e <= |path| && (forall i :: s <= i < e ==> path[i] != '/') && (e < |path| ==> path[e] == '/')
  }

  /** The end of the run of characters that are not separators. */
  method RunEnd(path: Text, p: nat) returns (e: nat)
    requires p <= |path|
    ensures IsRun(path, p, e)
  {
    e := p;
    while e < |path| && path[e] != '/'
      invariant p <= e <= |path|
      invariant forall i :: p <= i < e ==> path[i] != '/'
    {
      e := e + 1;
    }
  }

  /** A run is the next component. */
  lemma RunSplits(path: Text, s: nat, e: nat)
    requires IsRun(path, s, e) && s < e
    ensures Component(path[s..e]) && Split(path[s..]) == [path[s..e]] + Split(path[e..])
  {
    assert path[s..][..e - s] == path[s..e] && path[s..][e - s..] == path[e..];
    SplitStep(path[s..], e - s);
  }

  /** The next component at or after a place that is not inside one, as it lies in the text. */
  method NextComponent(inp: Text, p: nat) returns (s: nat, e: nat)
    requires p <= |inp|
    ensures p <= s <= e <= |inp|
    ensures s == |inp| ==> Split(inp[p..]) == []
    ensures s < |inp| ==> s < e && Component(inp[s..e]) && Split(inp[p..]) == [inp[s..e]] + Split(inp[e..])
  {
    s := p;
    while s < |inp| && inp[s] == '/'
      invariant p <= s <= |inp|
      invariant Split(inp[s..]) == Split(inp[p..])
    {
      SkipSeparator(inp, s);
      s := s + 1;
    }
    e := RunEnd(inp, s);
    ComponentHere(inp, s, e);
  }

  lemma SkipSeparator(inp: Text, s: nat)
    requires s < |inp| && inp[s] == '/'
    ensures Split(inp[s..]) == Split(inp[s + 1..])
  {
    assert inp[s..][1..] == inp[s + 1..];
  }

  lemma ComponentHere(inp: Text, s: nat, e: nat)
    requires IsRun(inp, s, e) && (s < |inp| ==> inp[s] != '/')
    ensures s == |inp| ==> Split(inp[s..]) == []
    ensures s < |inp| ==> s < e && Component(inp[s..e]) && Split(inp[s..]) == [inp[s..e]] + Split(inp[e..])
  {
    if s < |inp| { RunSplits(inp, s, e); }
  }

  /** One turn of the loop of `normalise`: the stack in the buffer takes one component. */
  method Apply(out: array<char>, at: nat, o: nat, cap: nat, c: Text, ghost done: seq<Text>) returns (p: nat, full: bool)
    requires at + cap <= out.Length && o < cap && Component(c)
    requires AllComponents(done) && Shows(out, at, Render(Stack(done))) && o == |Render(Stack(done))|
    modifies out
    ensures full <==> Ordinary(c) && |Render(Stack(done))| + |c| + 2 > cap
    ensures !full ==> p == |Render(Stack(done + [c]))| < cap && Shows(out, at, Render(Stack(done + [c])))
    ensures forall i :: 0 <= i < out.Length && !(at <= i < at + cap) ==> out[i] == old(out[i])
  {
    p, full := o, false;
    StackOrdinary(done);
    StackAppend(done, c);
    if |c| == 1 && c[0] == '.' { return; }
    if |c| == 2 && c[0] == '.' && c[1] == '.' {
      assert c == "..";
      p := PopLast(out, at, o, Stack(done));
      return;
    }
    if o + |c| + 2 > cap { full := true; return; }
    p := PushLast(out, at, o, cap, c, Stack(done));
  }

  /** The components before a place have been taken, and all of them fitted. */
  ghost predicate Taken(inp: Text, cap: nat, p: nat, done: seq<Text>) {
    p <= |inp| && AllComponents(done) && Fits(done, cap) && Split(inp) == done + Split(inp[p..])
  }

  /** One component more: it finds room, or the name does not fit. */
  lemma {:induction false} TakeNext(inp: Text, cap: nat, p: nat, s: nat, e: nat, done: seq<Text>)
    requires Taken(inp, cap, p, done) && p <= s < e <= |inp| && Component(inp[s..e])
    requires Split(inp[p..]) == [inp[s..e]] + Split(inp[e..])
    ensures if Ordinary(inp[s..e]) && |Render(Stack(done))| + (e - s) + 2 > cap then !Fits(Split(inp), cap)
            else Taken(inp, cap, e, done + [inp[s..e]])
  {
    var c, rest := inp[s..e], Split(inp[e..]);
    assert Split(inp) == done + [c] + rest by { assert done + ([c] + rest) == done + [c] + rest; }
    FitsAppend(done, c, cap);
    if Fits(Split(inp), cap) { FitsPrefix(done + [c], rest, cap); }
  }

  lemma {:induction false} TakenAll(inp: Text, cap: nat, p: nat, done: seq<Text>)
    requires Taken(inp, cap, p, done) && p == |inp|
    ensures done == Split(inp) && Fits(Split(inp), cap)
  {
    assert inp[|inp|..] == [];
  }

  /** One turn: the next component goes onto the stack in the buffer, or there is no room for it, or there is
      none. */
  method Step(inp: Text, p: nat, out: array<char>, at: nat, o: nat, cap: nat, ghost done: seq<Text>)
    returns (q: nat, o': nat, full: bool, ghost next: seq<Text>)
    requires at + cap <= out.Length && o < cap && p < |inp| && Taken(inp, cap, p, done)
    requires Shows(out, at, Render(Stack(done))) && o == |Render(Stack(done))|
    modifies out
    ensures full ==> !Fits(Split(inp), cap)
    ensures !full ==> p < q && Taken(inp, cap, q, next)
    ensures !full ==> o' < cap && Shows(out, at, Render(Stack(next))) && o' == |Render(Stack(next))|
    ensures forall i :: 0 <= i < out.Length && !(at <= i < at + cap) ==> out[i] == old(out[i])
  {
    var s, e := NextComponent(inp, p);
    q, o', full, next := e, o, false, done;
    if s == |inp| {
      NoneTaken(inp, cap, p, done);
    } else {
      o', full := Apply(out, at, o, cap, inp[s..e], done);
      next := done + [inp[s..e]];
      TakeNext(inp, cap, p, s, e, done);
    }
  }

  lemma NoneTaken(inp: Text, cap: nat, p: nat, done: seq<Text>)
    requires Taken(inp, cap, p, done) && Split(inp[p..]) == []
    ensures Taken(inp, cap, |inp|, done)
  {
    assert inp[|inp|..] == [];
  }

  method Normalise(inp: Text, out: array<char>, at: nat, cap: nat) returns (r: int)
    requires 1 <= cap && at + cap <= out.Length
    modifies out
    ensures r == 0 || r == -ENAMETOOLONG
    ensures r == 0 <==> Fits(Split(inp), cap)
    ensures r == 0 ==> |Render(Stack(Split(inp)))| < cap && Holds(out, at, Render(Stack(Split(inp))))
    ensures forall i :: 0 <= i < out.Length && !(at <= i < at + cap) ==> out[i] == old(out[i])
  {
    var o: nat := 0;
    out[at] := '\0';
    var p: nat := 0;
    ghost var done: seq<Text> := [];
    while p < |inp|
      invariant Taken(inp, cap, p, done) && o < cap
      invariant Shows(out, at, Render(Stack(done))) && o == |Render(Stack(done))|
      invariant forall i :: 0 <= i < out.Length && !(at <= i < at + cap) ==> out[i] == old(out[i])
      decreases |inp| - p
    {
      var full;
      p, o, full, done := Step(inp, p, out, at, o, cap, done);
      if full { return -ENAMETOOLONG; }
    }
    TakenAll(inp, cap, p, done);
    out[at + o] := '\0';
    return 0;
  }

  // ----- join -----

  predicate Letter(c: char) { 'A' <= c <= 'Z' || 'a' <= c <= 'z' }

  /** The part of an absolute name that is not a component: a separator, or a volume with one.
      Zero for a relative name. */
  function RootLength(name: Text): (n: nat)
    ensures n <= |name|
  {
    if name == [] then 0
    else if name[0] == '/' then 1
    else if |name| >= 3 && name[1] == ':' && (name[2] == '/' || name[2] == '\\') && Letter(name[0]) then 3
    else 0
  }

  function Slash(c: char): char { if c == '\\' then '/' else c }

  function Slashed(s: Text): (r: Text)
    ensures |r| == |s| && forall i :: 0 <= i < |s| ==> r[i] == Slash(s[i])
  {
    seq(|s|, i requires 0 <= i < |s| => Slash(s[i]))
  }

  function Ended(base: Text): Text {
    if base == [] || base[|base| - 1] == '/' then base else base + "/"
  }

  /** The name whose root survives. */
  function Rooted(prefix: Text, rel: Text): Text {
    if RootLength(rel) > 0 then rel else prefix
  }

  /** What follows the root, before it is normalised. */
  function Body(prefix: Text, rel: Text): Text {
    if RootLength(rel) > 0 then rel[RootLength(rel)..] else Ended(prefix[RootLength(prefix)..]) + rel
  }

  /** The components of the body, cut at backslashes too when the root is a volume's. */
  function BodyComponents(prefix: Text, rel: Text): seq<Text> {
    if RootLength(Rooted(prefix, rel)) == 3 then Split(Slashed(Body(prefix, rel))) else Split(Body(prefix, rel))
  }

  /** The text of a root and a stack. */
  function Named(from: Text, stack: seq<Text>): Text {
    Slashed(from[..RootLength(from)]) + Render(stack)
  }

  /** What `join` answers: a name, or that it is too long. */
  ghost function Joined(prefix: Text, rel: Text, cap: nat): Option<Text> {
    var from := Rooted(prefix, rel);
    var keep := RootLength(from);
    var cs := BodyComponents(prefix, rel);
    if |Body(prefix, rel)| + 1 < MAX_PATH && keep + 1 < cap && Fits(cs, cap - keep)
    then Some(Named(from, Stack(cs)))
    else None
  }

  function Min(a: nat, b: nat): nat { if a <= b then a else b }

  /** Copies a text to a place in the buffer until one character of it is left. */
  method CopyBounded(tmp: array<char>, o: nat, src: Text) returns (p: nat)
    requires o < tmp.Length
    modifies tmp
    ensures p == Min(o + |src|, tmp.Length - 1)
    ensures Shows(tmp, o, src[..p - o])
    ensures forall i :: 0 <= i < o ==> tmp[i] == old(tmp[i])
  {
    p := o;
    var i := 0;
    while i < |src| && p + 1 < tmp.Length
      invariant 0 <= i <= |src| && p == o + i < tmp.Length
      invariant forall j :: 0 <= j < i ==> tmp[o + j] == src[j]
      invariant forall j :: 0 <= j < o ==> tmp[j] == old(tmp[j])
    {
      tmp[p] := src[i];
      p, i := p + 1, i + 1;
    }
  }

  /** The base, a separator where it needs one, and the remainder, in a buffer; or too long. */
  method Compose(tmp: array<char>, base: Text, rest: Text) returns (o: nat, full: bool)
    requires tmp.Length == MAX_PATH
    modifies tmp
    ensures full <==> |Ended(base) + rest| + 1 >= MAX_PATH
    ensures !full ==> o == |Ended(base) + rest| && tmp[..o] == Ended(base) + rest
  {
    o := CopyBounded(tmp, 0, base);
    ghost var n := o;
    assert forall j :: 0 <= j < n ==> tmp[0 + j] == base[..n][j];
    if o != 0 && tmp[o - 1] != '/' && o + 1 < tmp.Length { tmp[o] := '/'; o := o + 1; }
    ghost var m := o;
    ghost var head := tmp[..m];
    assert n == |base| && m < MAX_PATH - 1 ==> Ended(base) == head;
    o := CopyBounded(tmp, o, rest);
    full := o + 1 >= tmp.Length;
    if !full {
      assert rest[..o - m] == rest;
      Together(tmp, head, rest);
    }
  }

  lemma Together(tmp: array<char>, head: Text, rest: Text)
    requires Shows(tmp, |head|, rest) && tmp[..|head|] == head
    ensures tmp[..|head| + |rest|] == head + rest
  {
    assert forall j :: 0 <= j < |rest| ==> tmp[|head| + j] == rest[j];
  }

  /** Both spellings of the separator become the one. */
  method Separate(tmp: array<char>, o: nat)
    requires o <= tmp.Length
    modifies tmp
    ensures tmp[..o] == Slashed(old(tmp[..o]))
  {
    for i := 0 to o
      invariant forall j :: 0 <= j < i ==> tmp[j] == Slash(old(tmp[j]))
      invariant forall j :: i <= j < o ==> tmp[j] == old(tmp[j])
    {
      if tmp[i] == '\\' { tmp[i] := '/'; }
    }
  }

  method CopyRoot(out: array<char>, from: Text, keep: nat)
    requires keep <= |from| && keep <= out.Length
    modifies out
    ensures Shows(out, 0, Slashed(from[..keep]))
    ensures forall i :: keep <= i < out.Length ==> out[i] == old(out[i])
  {
    for i := 0 to keep
      invariant forall j :: 0 <= j < i ==> out[j] == Slash(from[j])
      invariant forall j :: keep <= j < out.Length ==> out[j] == old(out[j])
    {
      out[i] := if from[i] == '\\' then '/' else from[i];
    }
  }

  lemma HoldsAfter(out: array<char>, root: Text, rest: Text)
    requires Shows(out, 0, root) && Holds(out, |root|, rest)
    ensures Holds(out, 0, root + rest)
  {
    forall j | 0 <= j < |root + rest| ensures out[0 + j] == (root + rest)[j] {
      if j < |root| {
        assert out[0 + j] == root[j];
      } else {
        assert out[|root| + (j - |root|)] == rest[j - |root|];
      }
    }
  }

  method Join(prefix: Text, rel: Text, out: array<char>, cap: nat) returns (r: int)
    requires cap <= out.Length
    modifies out
    ensures r == 0 || r == -ENAMETOOLONG
    ensures r == 0 <==> Joined(prefix, rel, cap).Some?
    ensures r == 0 ==> |Joined(prefix, rel, cap).value| < cap && Holds(out, 0, Joined(prefix, rel, cap).value)
    ensures forall i :: cap <= i < out.Length ==> out[i] == old(out[i])
  {
    var from := if RootLength(rel) != 0 then rel else prefix;
    var keep := RootLength(from);
    var body, full := Spell(prefix, rel, from, keep);
    if full || keep + 1 >= cap { return -ENAMETOOLONG; }
    r := Finish(out, from, keep, body, cap);
  }

  /** The body, in a buffer of its own, with one spelling of the separator; or too long. */
  method Spell(prefix: Text, rel: Text, from: Text, keep: nat) returns (body: Text, full: bool)
    requires from == Rooted(prefix, rel) && keep == RootLength(from)
    ensures full <==> |Body(prefix, rel)| + 1 >= MAX_PATH
    ensures !full ==> Split(body) == BodyComponents(prefix, rel)
  {
    var tmp := new char[MAX_PATH];
    var o;
    o, full := Gather(tmp, prefix, rel);
    if full { return [], true; }
    if keep == 3 && from[1] == ':' { Separate(tmp, o); }
    body := tmp[..o];
  }

  /** The body, in a buffer; or too long. */
  method Gather(tmp: array<char>, prefix: Text, rel: Text) returns (o: nat, full: bool)
    requires tmp.Length == MAX_PATH
    modifies tmp
    ensures full <==> |Body(prefix, rel)| + 1 >= MAX_PATH
    ensures !full ==> o <= tmp.Length && tmp[..o] == Body(prefix, rel)
  {
    var rroot := RootLength(rel);
    var base := if rroot != 0 then [] else prefix[RootLength(prefix)..];
    BodyIs(prefix, rel);
    o, full := Compose(tmp, base, rel[rroot..]);
  }

  lemma BodyIs(prefix: Text, rel: Text)
    ensures RootLength(rel) > 0 ==> Body(prefix, rel) == Ended([]) + rel[RootLength(rel)..]
    ensures RootLength(rel) == 0 ==> Body(prefix, rel) == Ended(prefix[RootLength(prefix)..]) + rel[RootLength(rel)..]
  {
  }

  /** The root, and behind it the body, normalised. */
  method Finish(out: array<char>, from: Text, keep: nat, body: Text, cap: nat) returns (r: int)
    requires keep <= |from| && keep + 1 < cap <= out.Length
    modifies out
    ensures r == 0 || r == -ENAMETOOLONG
    ensures r == 0 <==> Fits(Split(body), cap - keep)
    ensures var name := Slashed(from[..keep]) + Render(Stack(Split(body)));
      r == 0 ==> |name| < cap && Holds(out, 0, name)
    ensures forall i :: cap <= i < out.Length ==> out[i] == old(out[i])
  {
    CopyRoot(out, from, keep);
    r := Normalise(body, out, keep, cap - keep);
    if r == 0 { HoldsAfter(out, Slashed(from[..keep]), Render(Stack(Split(body)))); }
  }
}
