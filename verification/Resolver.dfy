/**
  Resolving a name: which supplied directory it is reached through and by what remainder
  (`okm_resolve`), and the name that is taken as it stands (`already_normal`).
*/
module Resolver {
  import opened Options
  import opened Components
  import opened Names

  const EFAULT: int := 14
  const ENOENT: int := 2
  const ENOTDIR: int := 20
  const EACCES: int := 13

  // ----- what a joined name names -----

  lemma {:induction false} SplitEnded(base: Text, rel: Text)
    ensures Split(Ended(base) + rel) == Split(base) + Split(rel)
  {
    if base == [] {
      assert Ended(base) + rel == rel;
    } else if base[|base| - 1] == '/' {
      var b := base[..|base| - 1];
      assert base == b + "/";
      SplitAround(b, rel);
      SplitTrailing(b);
    } else {
      SplitAround(base, rel);
    }
  }

  lemma {:induction false} SplitBehindRoot(name: Text)
    requires name != [] && name[0] == '/'
    ensures Split(name[1..]) == Split(name)
  {
  }

  /** The components a '/'-rooted answer of `join` has: those of the prefix and then those of
      the remainder, or those of the remainder alone where it has a root. */
  function Meant(prefix: Text, rel: Text): seq<Text> {
    if RootLength(rel) > 0 then Split(rel) else Split(prefix) + Split(rel)
  }

  /** Joining is the component stack: nothing is truncated, and `..` at the root stays there. */
  lemma JoinedMeaning(prefix: Text, rel: Text, cap: nat)
    requires RootLength(Rooted(prefix, rel)) == 1
    ensures BodyComponents(prefix, rel) == Meant(prefix, rel)
    ensures Joined(prefix, rel, cap).Some? ==>
              && Joined(prefix, rel, cap).value == "/" + Render(Stack(Meant(prefix, rel)))
              && AllOrdinary(Stack(Meant(prefix, rel)))
  {
    var from := Rooted(prefix, rel);
    assert from[0] == '/';
    assert Slashed(from[..1]) == "/";
    if RootLength(rel) > 0 {
      SplitBehindRoot(rel);
    } else {
      SplitEnded(prefix[1..], rel);
      SplitBehindRoot(prefix);
    }
    SplitComponents(Body(prefix, rel));
    StackOrdinary(Meant(prefix, rel));
  }

  lemma {:induction false} RenderLength(cs: seq<Text>, c: Text)
    ensures |Render(cs + [c])| == |c| + if cs == [] then 0 else |Render(cs)| + 1
  {
    RenderAppend(cs, c);
  }

  lemma {:induction false} ShortFits(cs: seq<Text>, cap: nat)
    requires AllComponents(cs) && |Render(cs)| + 2 <= cap
    ensures Fits(cs, cap) && |Render(Stack(cs))| <= |Render(cs)|
    decreases |cs|
  {
    if cs != [] {
      var k := |cs| - 1;
      var front, c := cs[..k], cs[k];
      assert cs == front + [c];
      RenderLength(front, c);
      ShortFits(front, cap);
      StackAppend(front, c);
      FitsAppend(front, c, cap);
      PushLength(Stack(front), c);
    }
  }

  lemma {:induction false} PushLength(st: seq<Text>, c: Text)
    ensures |Render(Push(st, c))| <= |c| + if st == [] then 0 else |Render(st)| + 1
  {
    RenderLength(st, c);
    PoppedIsShorter(st);
  }

  lemma {:induction false} PoppedIsShorter(st: seq<Text>)
    ensures st != [] ==> |Render(st[..|st| - 1])| <= |Render(st)|
  {
    if st != [] {
      assert st == st[..|st| - 1] + [st[|st| - 1]];
      RenderLength(st[..|st| - 1], st[|st| - 1]);
    }
  }

  lemma {:induction false} SplitIsShorter(s: Text)
    ensures |Render(Split(s))| <= |s|
    decreases |s|
  {
    if s != [] {
      if s[0] == '/' {
        SplitIsShorter(s[1..]);
      } else {
        var rest := s[Run(s)..];
        SplitIsShorter(rest);
        assert Split(s) == [s[..Run(s)]] + Split(rest);
        if Split(rest) != [] {
          RenderConcat([s[..Run(s)]], Split(rest));
          RunEnds(s);
          SplitIsShorter(rest[1..]);
        }
      }
    }
  }

  /** Names that are short enough together are always joined, and what is joined fits with its terminator. */
  lemma ShortNamesJoin(prefix: Text, rel: Text, cap: nat)
    requires |prefix| + |rel| + 6 <= cap <= MAX_PATH
    ensures Joined(prefix, rel, cap).Some? && |Joined(prefix, rel, cap).value| < cap
  {
    var from, body := Rooted(prefix, rel), Body(prefix, rel);
    var keep := RootLength(from);
    assert |body| <= |prefix| + |rel| + 1 - keep;
    var text := if keep == 3 then Slashed(body) else body;
    SplitIsShorter(text);
    SplitComponents(text);
    ShortFits(Split(text), cap - keep);
  }

  lemma SlashedNoNul(s: Text)
    requires NoNul(s)
    ensures NoNul(Slashed(s))
  {
  }

  lemma JoinedNoNul(prefix: Text, rel: Text, cap: nat)
    requires NoNul(prefix) && NoNul(rel) && Joined(prefix, rel, cap).Some?
    ensures NoNul(Joined(prefix, rel, cap).value)
  {
    var from, body := Rooted(prefix, rel), Body(prefix, rel);
    assert NoNul(body);
    SlashedNoNul(body);
    SlashedNoNul(from[..RootLength(from)]);
    NormalNoNul(body);
    NormalNoNul(Slashed(body));
  }

  // ----- names already in normal form -----

  /** A name that normalising would give back. */
  ghost predicate IsNormal(path: Text) {
    path == "/" + Render(Stack(Split(path)))
  }

  lemma {:induction false} NormalMeans(path: Text)
    ensures IsNormal(path) <==> AllOrdinary(Split(path)) && path == "/" + Render(Split(path))
  {
    var cs := Split(path);
    SplitComponents(path);
    StackOrdinary(cs);
    if IsNormal(path) {
      SplitTrailing(Render(Stack(cs)));
      SplitRender(Stack(cs));
      assert Stack(cs) == cs;
    }
    if AllOrdinary(cs) { StackOfOrdinary(cs); }
  }

  /** What precedes the next component of a name in normal form. */
  function Lead(done: seq<Text>): Text {
    if done == [] then "/" else "/" + Render(done) + "/"
  }

  lemma {:induction false} LeadAppend(done: seq<Text>, rest: seq<Text>)
    requires rest != []
    ensures "/" + Render(done + rest) == Lead(done) + Render(rest)
  {
    if done == [] {
      assert done + rest == rest;
    } else {
      RenderConcat(done, rest);
      Regroup2("/", Render(done), Render(rest));
    }
  }

  lemma Regroup2(x: Text, y: Text, z: Text)
    ensures x + (y + "/" + z) == x + y + "/" + z
  {
  }

  /** The walk along a name has come to a component, having passed the ones in `done`; or to
      the end. */
  ghost predicate Walked(path: Text, p: nat, done: seq<Text>) {
    && 1 <= p <= |path|
    && AllOrdinary(done) && Split(path) == done + Split(path[p..])
    && path[..p] == if p < |path| then Lead(done) else "/" + Render(done)
  }

  /** A separator where a component should begin is in no normal name. */
  lemma {:induction false} NextIsNotSeparator(path: Text, p: nat, done: seq<Text>, rest: seq<Text>)
    requires p < |path| && path[..p] == Lead(done) && Split(path) == done + rest
    requires IsNormal(path)
    ensures path[p] != '/'
  {
    NormalMeans(path);
    SplitComponents(path);
    assert rest == [] ==> done + rest == done;
    LeadAppend(done, rest);
    assert AllComponents(rest) by { assert forall i :: 0 <= i < |rest| ==> rest[i] == Split(path)[|done| + i]; }
    RenderHead(rest);
    assert path[p] == Render(rest)[0];
  }

  lemma NormalStep(path: Text, s: nat, e: nat, done: seq<Text>)
    requires Walked(path, s, done) && s < e <= |path| && (e < |path| ==> path[e] == '/')
    requires Split(path[s..]) == [path[s..e]] + Split(path[e..])
    ensures !Ordinary(path[s..e]) || e + 1 == |path| ==> !IsNormal(path)
    ensures Ordinary(path[s..e]) && e + 1 < |path| ==> Walked(path, e + 1, done + [path[s..e]])
    ensures Ordinary(path[s..e]) && e == |path| ==> Walked(path, e, done + [path[s..e]])
  {
    var c, rest := path[s..e], Split(path[e..]);
    assert Split(path) == done + [c] + rest by { Regroup3(done, [c], rest); }
    assert Split(path)[|done|] == c;
    NormalMeans(path);
    LeadAppend(done, [c]);
    assert path[..e] == path[..s] + c;
    assert path[..e] == "/" + Render(done + [c]);
    StepOver(path, e);
    if e + 1 == |path| {
      assert Split(path) == done + [c] by { assert rest == []; }
      assert path == path[..e] + "/";
    }
  }

  lemma Regroup3(a: seq<Text>, b: seq<Text>, c: seq<Text>)
    ensures a + (b + c) == a + b + c
  {
  }

  /** The separator behind a component. */
  lemma StepOver(path: Text, e: nat)
    requires e < |path| ==> path[e] == '/'
    requires e <= |path|
    ensures e < |path| ==> Split(path[e..]) == Split(path[e + 1..]) && path[..e + 1] == path[..e] + "/"
    ensures e + 1 >= |path| ==> Split(path[e..]) == []
  {
    if e < |path| {
      assert path[e..][1..] == path[e + 1..];
      SplitBehindRoot(path[e..]);
    }
  }

  /** The component between two places is `.` or `..`. */
  predicate Dots(path: Text, s: nat, e: nat)
    requires s < e <= |path|
  {
    path[s] == '.' && (e - s == 1 || (e - s == 2 && path[s + 1] == '.'))
  }

  lemma DotsOrOrdinary(path: Text, s: nat, e: nat)
    requires s < e <= |path| && '/' !in path[s..e]
    ensures Dots(path, s, e) <==> !Ordinary(path[s..e])
  {
    var c := path[s..e];
    assert c[0] == path[s] && (e - s == 2 ==> c == [path[s], path[s + 1]]) && (e - s == 1 ==> c == [path[s]]);
  }

  lemma WalkEnds(path: Text, done: seq<Text>)
    requires Walked(path, |path|, done)
    ensures IsNormal(path)
  {
    assert path[..|path|] == path && path[|path|..] == [] && Split(path) == done;
    NormalMeans(path);
  }

  /** A separator where a component should begin. */
  lemma NoneBetween(path: Text, s: nat, done: seq<Text>)
    requires Walked(path, s, done) && s < |path| && path[s] == '/'
    ensures !IsNormal(path)
  {
    if IsNormal(path) { NextIsNotSeparator(path, s, done, Split(path[s..])); }
  }

  /** One turn: a component of dots or a separator at the end decides it, and else the walk goes on. */
  lemma NormalTurn(path: Text, s: nat, e: nat, done: seq<Text>)
    requires Walked(path, s, done) && IsRun(path, s, e) && s < e
    ensures Dots(path, s, e) || e + 1 == |path| ==> !IsNormal(path)
    ensures !Dots(path, s, e) && e + 1 < |path| ==> Walked(path, e + 1, done + [path[s..e]])
    ensures !Dots(path, s, e) && e == |path| ==> Walked(path, e, done + [path[s..e]])
  {
    RunSplits(path, s, e);
    DotsOrOrdinary(path, s, e);
    NormalStep(path, s, e, done);
  }

  /** What a turn says, from where it ends. */
  lemma TurnTells(path: Text, s: nat, e: nat, on: bool, p: nat, done: seq<Text>, next: seq<Text>)
    requires Walked(path, s, done) && s < |path| && IsRun(path, s, e)
    requires on <==> s < e && !Dots(path, s, e) && e + 1 != |path|
    requires on ==> p == (if e < |path| then e + 1 else e) && next == done + [path[s..e]]
    ensures if on then s < p <= |path| && Walked(path, p, next) else !IsNormal(path)
  {
    if s == e { NoneBetween(path, s, done); } else { NormalTurn(path, s, e, done); }
  }

  /** One turn of the loop: whether the walk goes on, and where it has come to. */
  method PassComponent(path: Text, s: nat, ghost done: seq<Text>) returns (on: bool, p: nat, ghost next: seq<Text>)
    requires Walked(path, s, done) && s < |path|
    ensures if on then s < p <= |path| && Walked(path, p, next) else !IsNormal(path)
  {
    p := RunEnd(path, s);
    ghost var e := p;
    on := p - s != 0 && !Dots(path, s, p);
    if on && p < |path| {
      p := p + 1;
      on := p < |path|;
    }
    next := done + [path[s..e]];
    TurnTells(path, s, e, on, p, done, next);
  }

  method AlreadyNormal(path: Text) returns (n: nat)
    ensures n != 0 <==> IsNormal(path) && |path| < MAX_PATH
    ensures n != 0 ==> n == |path|
  {
    if path == [] || path[0] != '/' { return 0; }
    var p: nat := 1;
    ghost var done: seq<Text> := [];
    SplitBehindRoot(path);
    while p < |path|
      invariant Walked(path, p, done)
      decreases |path| - p
    {
      var on;
      on, p, done := PassComponent(path, p, done);
      if !on { return 0; }
    }
    WalkEnds(path, done);
    return if p < MAX_PATH then p else 0;
  }

  lemma {:induction false} FitsOrdinary(cs: seq<Text>, cap: nat)
    requires AllOrdinary(cs) && cs != []
    ensures Fits(cs, cap) <==> |cs[0]| + 2 <= cap && |Render(cs)| + 1 <= cap
    decreases |cs|
  {
    var k := |cs| - 1;
    StackOfOrdinary(cs[..k]);
    if k > 0 { FitsOrdinary(cs[..k], cap); }
  }

  /** The short way and the long way agree: where a name is taken as it stands, joining gives it
      back, except that joining refuses the one shape that fills the buffer with one component. */
  lemma {:induction false} AlreadyNormalAgrees(path: Text)
    requires IsNormal(path) && |path| < MAX_PATH
    ensures Joined([], path, MAX_PATH).None? <==> |Split(path)| == 1 && |path| == MAX_PATH - 1
    ensures Joined([], path, MAX_PATH).Some? ==> Joined([], path, MAX_PATH).value == path
  {
    NormalMeans(path);
    JoinedMeaning([], path, MAX_PATH);
    NormalFits(Split(path));
    assert |Body([], path)| == |path| - 1;
  }

  /** Here: a separator and one component of as many characters as then fit. */
  lemma LongestIsRefused() returns (path: Text)
    ensures IsNormal(path) && |path| < MAX_PATH && Joined([], path, MAX_PATH).None?
  {
    var c := seq(MAX_PATH - 2, _ => 'a');
    path := "/" + c;
    assert c[0] == 'a' && '/' !in c && Component(c) && Ordinary(c);
    SplitTrailing(c);
    SplitOne(c);
    NormalMeans(path);
    AlreadyNormalAgrees(path);
  }

  lemma {:induction false} NormalFits(cs: seq<Text>)
    requires AllOrdinary(cs) && |Render(cs)| < MAX_PATH - 1
    ensures Fits(cs, MAX_PATH - 1) <==> !(|cs| == 1 && |Render(cs)| == MAX_PATH - 2)
  {
    if cs != [] {
      FitsOrdinary(cs, MAX_PATH - 1);
      RenderHead(cs);
    }
  }

  // ----- the supplied directory -----

  type Handle = int

  datatype Preopen = Preopen(dir: Handle, name: Text)

  predicate Volume(name: Text) { |name| >= 2 && name[1] == ':' }

  function Lower(c: char): char {
    if 'A' <= c <= 'Z' then ((c as int) + 32) as char else c
  }

  predicate Separator(c: char) { c == '/' || c == '\\' }

  predicate SameChar(a: char, b: char, volume: bool) {
    a == b || (volume && ((Separator(a) && Separator(b)) || Lower(a) == Lower(b)))
  }

  /** The name is a prefix of the path, and ends where a component of the path does. */
  predicate Prefixes(name: Text, abs: Text) {
    && name != [] && |name| <= |abs|
    && (forall i :: 0 <= i < |name| ==> SameChar(abs[i], name[i], Volume(name)))
    && var last := name[|name| - 1];
       || last == '/' || (Volume(name) && last == '\\')
       || |abs| == |name| || abs[|name|] == '/' || (Volume(name) && abs[|name|] == '\\')
  }

  method IsPrefixAtBoundary(name: Text, abs: Text) returns (b: bool)
    ensures b <==> Prefixes(name, abs)
  {
    if |name| == 0 { return false; }
    var volume := |name| >= 2 && name[1] == ':';
    for i := 0 to |name|
      invariant i <= |abs|
      invariant forall j :: 0 <= j < i ==> SameChar(abs[j], name[j], volume)
    {
      if i == |abs| || !SameChar(abs[i], name[i], volume) { return false; }
    }
    if name[|name| - 1] == '/' || (volume && name[|name| - 1] == '\\') { return true; }
    return |abs| == |name| || abs[|name|] == '/' || (volume && abs[|name|] == '\\');
  }

  /** A supplied directory's name that begins with the separator and is in normal form. */
  ghost predicate Plain(name: Text) { IsNormal(name) && !Volume(name) }

  lemma {:induction false} RenderEnd(cs: seq<Text>)
    requires AllComponents(cs) && cs != []
    ensures Render(cs) != [] && Render(cs)[|Render(cs)| - 1] != '/'
    decreases |cs|
  {
    var c := cs[|cs| - 1];
    assert Component(c) && c[|c| - 1] in c;
    RenderHead(cs);
  }

  /** Comparing characters is comparing components. */
  lemma {:induction false} PrefixMeaning(name: Text, abs: Text)
    requires Plain(name) && IsNormal(abs)
    ensures Prefixes(name, abs) <==> Split(name) <= Split(abs)
  {
    NormalMeans(name);
    NormalMeans(abs);
    var n, a := Split(name), Split(abs);
    assert name != [] && abs != [];
    if n == [] {
      assert name == "/";
    } else {
      RenderEnd(n);
      if n <= a { ComponentsPrefix(name, abs, n, a); }
      if Prefixes(name, abs) { CharactersPrefix(name, abs); }
    }
  }

  lemma {:induction false} ComponentsPrefix(name: Text, abs: Text, n: seq<Text>, a: seq<Text>)
    requires n != [] && n <= a && name == "/" + Render(n) && abs == "/" + Render(a)
    ensures Prefixes(name, abs)
  {
    var r := a[|n|..];
    assert a == n + r;
    if r == [] {
      assert a == n;
    } else {
      LeadAppend(n, r);
      assert abs == (name + "/") + Render(r);
    }
  }

  lemma {:induction false} CharactersPrefix(name: Text, abs: Text)
    requires Prefixes(name, abs) && !Volume(name) && name[|name| - 1] != '/'
    ensures Split(name) <= Split(abs)
  {
    assert abs[..|name|] == name;
    if |abs| > |name| {
      var t := abs[|name| + 1..];
      assert abs == name + "/" + t;
      SplitAround(name, t);
    } else {
      assert abs == name;
    }
  }

  lemma {:induction false} RenderGrows(n: seq<Text>, r: seq<Text>)
    requires r != [] && AllComponents(r)
    ensures |Render(n + r)| > |Render(n)|
    ensures n != [] ==> |Render(n + r)| > |Render(n)| + 1
  {
    RenderHead(r);
    if n == [] { assert n + r == r; } else { RenderConcat(n, r); }
  }

  /** Of two directories above one path, the deeper has the longer name. */
  lemma DeeperNameIsLonger(path: seq<Text>, i: nat, j: nat)
    requires AllOrdinary(path) && i < j <= |path|
    ensures |Render(path[..i])| < |Render(path[..j])|
  {
    assert path[..j] == path[..i] + path[i..j];
    RenderGrows(path[..i], path[i..j]);
  }

  /** The directory with the longest matching name; of equals, the first supplied. */
  ghost predicate Best(pre: seq<Preopen>, abs: Text, b: nat) {
    && b < |pre| && Prefixes(pre[b].name, abs)
    && forall j :: 0 <= j < |pre| && Prefixes(pre[j].name, abs) ==>
         |pre[j].name| <= |pre[b].name| && (|pre[j].name| == |pre[b].name| ==> b <= j)
  }

  ghost predicate NoneMatches(pre: seq<Preopen>, abs: Text) {
    forall j :: 0 <= j < |pre| ==> !Prefixes(pre[j].name, abs)
  }

  method Select(pre: seq<Preopen>, abs: Text) returns (best: Option<nat>)
    ensures best.None? ==> NoneMatches(pre, abs)
    ensures best.Some? ==> Best(pre, abs, best.value)
  {
    best := None;
    for i := 0 to |pre|
      invariant best.None? ==> NoneMatches(pre[..i], abs)
      invariant best.Some? ==> Best(pre[..i], abs, best.value)
    {
      var m := IsPrefixAtBoundary(pre[i].name, abs);
      assert pre[..i + 1] == pre[..i] + [pre[i]];
      if m && (best.None? || |pre[i].name| > |pre[best.value].name|) { best := Some(i); }
    }
    assert pre[..|pre|] == pre;
  }

  // ----- resolving -----

  /** What a name is resolved against: the working directory, or what a descriptor names. */
  datatype Start =
    | Cwd(name: Text)
    | NotDirectory
    | Unnamed(dir: Handle)      // a directory that has no name
    | Directory(name: Text)

  datatype Resolution = At(base: Handle, rel: Text) | Error(code: int)

  ghost predicate GoodStart(start: Start) {
    (start.Cwd? || start.Directory?) ==> NoNul(start.name)
  }

  /** What is left of a path behind a directory's name, as the environment takes it. */
  function Behind(name: Text, rest: Text): Text
    decreases |rest|
  {
    if rest == [] then "."
    else if rest[0] == '/' || (rest[0] == '\\' && Volume(name)) then Behind(name, rest[1..])
    else rest
  }

  /** The absolute name a path has, taken as it stands where it can be. */
  ghost function Absolute(start: Start, path: Text): Option<Text> {
    if IsNormal(path) && |path| < MAX_PATH then Some(path)
    else if RootLength(path) > 0 then Joined([], path, MAX_PATH)
    else if start.Cwd? || start.Directory? then Joined(start.name, path, MAX_PATH)
    else None
  }

  /** Behind an absolute name, the supplied directory that is best, or none. */
  ghost predicate Lands(pre: seq<Preopen>, abs: Text, r: Resolution) {
    || (r == Error(-ENOENT) && NoneMatches(pre, abs))
    || exists b: nat :: Best(pre, abs, b) && r == At(pre[b].dir, Behind(pre[b].name, abs[|pre[b].name|..]))
  }

  /** The answer of `okm_resolve`, case by case. */
  ghost predicate Resolves(start: Start, path: Option<Text>, emptyOk: bool, pre: seq<Preopen>, r: Resolution) {
    if path.None? then r == Error(-EFAULT)
    else if path.value == [] && !emptyOk then r == Error(-ENOENT)
    else if RootLength(path.value) == 0 && start.NotDirectory? then r == Error(-ENOTDIR)
    else if RootLength(path.value) == 0 && start.Unnamed? then
      var cs := Split(path.value);
      if !Fits(cs, MAX_PATH) then r == Error(-ENAMETOOLONG)
      else r == At(start.dir, if Stack(cs) == [] then "." else Render(Stack(cs)))
    else
      var abs := Absolute(start, path.value);
      if abs.None? then r == Error(-ENAMETOOLONG) else Lands(pre, abs.value, r)
  }

  /** The string a buffer holds. */
  method ReadString(buffer: array<char>, ghost s: Text) returns (t: Text)
    requires NoNul(s) && Holds(buffer, 0, s)
    ensures t == s
  {
    var n := 0;
    assert forall j :: 0 <= j < |s| ==> buffer[j] == s[j] && s[j] != '\0' by {
      forall j | 0 <= j < |s| ensures buffer[j] == s[j] { assert buffer[0 + j] == s[j]; }
    }
    while buffer[n] != '\0'
      invariant 0 <= n <= |s|
      decreases |s| - n
    {
      n := n + 1;
    }
    t := buffer[..n];
  }

  /** Copies what fits. */
  function CopyStr(src: Text, cap: nat): Text {
    if |src| < cap then src else src[..if cap == 0 then 0 else cap - 1]
  }

  lemma TwoDots(text: Text, s: nat, e: nat)
    requires s <= e <= |text|
    ensures text[s..e] == ".." <==> e - s == 2 && text[s] == '.' && text[s + 1] == '.'
  {
    var c := text[s..e];
    if e - s == 2 { assert c[0] == text[s] && c[1] == text[s + 1] && c == [c[0], c[1]]; }
  }

  lemma NoneMore(done: seq<Text>, c: Text)
    requires ".." !in done && c != ".."
    ensures ".." !in done + [c]
  {
  }

  /** Whether a component of the text is `..`, by walking it. */
  method Ascends(text: Text) returns (b: bool)
    ensures b <==> ".." in Split(text)
  {
    var p: nat := 0;
    ghost var done: seq<Text> := [];
    while p < |text|
      invariant p <= |text|
      invariant Split(text) == done + Split(text[p..]) && ".." !in done
      decreases |text| - p
    {
      var s, e := NextComponent(text, p);
      if s == |text| { return false; }
      ghost var c := text[s..e];
      assert Split(text) == done + [c] + Split(text[e..]);
      TwoDots(text, s, e);
      if e - s == 2 && text[s] == '.' && text[s + 1] == '.' { return true; }
      NoneMore(done, c);
      p, done := e, done + [c];
    }
    return false;
  }

  /** Chooses the directory and writes the remainder. */
  method Land(pre: seq<Preopen>, abs: Text) returns (r: Resolution)
    requires |abs| < MAX_PATH
    ensures Lands(pre, abs, r)
  {
    var best := Select(pre, abs);
    if best.None? { return Error(-ENOENT); }
    var name := pre[best.value].name;
    var rest := |name|;
    while rest < |abs| && (abs[rest] == '/' || (abs[rest] == '\\' && |name| >= 2 && name[1] == ':'))
      invariant |name| <= rest <= |abs|
      invariant Behind(name, abs[rest..]) == Behind(name, abs[|name|..])
    {
      assert abs[rest..][1..] == abs[rest + 1..];
      rest := rest + 1;
    }
    assert rest < |abs| ==> abs[rest..][0] == abs[rest];
    r := At(pre[best.value].dir, if rest == |abs| then CopyStr(".", MAX_PATH) else CopyStr(abs[rest..], MAX_PATH));
  }

  /** A name beneath a directory that has no name. */
  method ResolveBeneath(dir: Handle, path: Text) returns (r: Resolution)
    requires NoNul(path)
    ensures Resolves(Unnamed(dir), Some(path), true, [], r) || RootLength(path) > 0
  {
    var norm := new char[MAX_PATH];
    var e := Normalise(path, norm, 0, MAX_PATH);
    if e != 0 { return Error(e); }
    ghost var st := Stack(Split(path));
    NormalNoNul(path);
    var text := ReadString(norm, Render(st));
    var up := Ascends(text);
    NormalDescends(path);
    if up { return Error(-EACCES); }
    var rel := CopyStr(text, MAX_PATH);
    if rel == [] { rel := CopyStr(".", MAX_PATH); }
    return At(dir, rel);
  }

  /** A normalised name does not ascend, and is empty only when nothing is left of it. */
  lemma {:induction false} NormalDescends(path: Text)
    ensures var st := Stack(Split(path)); ".." !in Split(Render(st)) && (st == [] <==> Render(st) == [])
  {
    var st := Stack(Split(path));
    SplitComponents(path);
    StackOrdinary(Split(path));
    SplitRender(st);
    if st != [] { RenderHead(st); }
    assert forall i :: 0 <= i < |st| ==> Ordinary(st[i]);
  }

  method Resolve(start: Start, path: Option<Text>, emptyOk: bool, pre: seq<Preopen>) returns (r: Resolution)
    requires GoodStart(start) && (path.Some? ==> NoNul(path.value))
    ensures Resolves(start, path, emptyOk, pre, r)
  {
    if path.None? { return Error(-EFAULT); }
    var name := path.value;
    if name == [] && !emptyOk { return Error(-ENOENT); }
    var buf := new char[MAX_PATH];
    var n := AlreadyNormal(name);
    var e, prefix := 0, [];
    if n != 0 {
      r := Land(pre, name);
      return;
    } else if RootLength(name) != 0 {
      e := Join([], name, buf, MAX_PATH);
    } else {
      match start
      case Cwd(cwd) =>
        prefix := cwd;
        e := Join(cwd, name, buf, MAX_PATH);
      case NotDirectory => return Error(-ENOTDIR);
      case Unnamed(dir) => r := ResolveBeneath(dir, name); return;
      case Directory(known) =>
        prefix := known;
        e := Join(known, name, buf, MAX_PATH);
    }
    if e != 0 { return Error(e); }
    JoinedNoNul(prefix, name, MAX_PATH);
    var abs := ReadString(buf, Joined(prefix, name, MAX_PATH).value);
    r := Land(pre, abs);
  }

  // ----- what a resolution means -----

  /** The components of the path a name has, resolved lexically. */
  function Wanted(start: Start, path: Text): seq<Text> {
    if RootLength(path) == 1 then Stack(Split(path))
    else if start.Cwd? || start.Directory? then Stack(Split(start.name) + Split(path))
    else []
  }

  /** The name has a root that is a separator, its own or that of what it is resolved against. */
  predicate FromSlash(start: Start, path: Text) {
    || RootLength(path) == 1
    || (RootLength(path) == 0 && (start.Cwd? || start.Directory?) && RootLength(start.name) == 1)
  }

  /** A supplied directory's name is in normal form beneath the separator, or does not begin with a separator: it is on
      a volume, or stands for itself. */
  ghost predicate Spelled(name: Text) { Plain(name) || (name != [] && !Separator(name[0])) }

  ghost predicate AllSpelled(pre: seq<Preopen>) {
    forall j :: 0 <= j < |pre| ==> Spelled(pre[j].name)
  }

  /** Such a directory is above the path of these components. */
  ghost predicate Above(name: Text, w: seq<Text>) { Plain(name) && Split(name) <= w }

  lemma {:induction false} AboveMeaning(name: Text, abs: Text)
    requires Spelled(name) && IsNormal(abs)
    ensures Prefixes(name, abs) <==> Above(name, Split(abs))
  {
    NormalMeans(abs);
    if Plain(name) {
      PrefixMeaning(name, abs);
    } else {
      assert abs[0] == '/' && !SameChar(abs[0], name[0], Volume(name));
    }
  }

  lemma AbsoluteMeaning(start: Start, path: Text)
    requires FromSlash(start, path) && Absolute(start, path).Some?
    ensures AllOrdinary(Wanted(start, path))
    ensures Absolute(start, path).value == "/" + Render(Wanted(start, path))
    ensures IsNormal(Absolute(start, path).value) && Split(Absolute(start, path).value) == Wanted(start, path)
  {
    SplitComponents(path);
    if IsNormal(path) && |path| < MAX_PATH {
      StackOrdinary(Split(path));
      NormalMeans(path);
    } else if RootLength(path) > 0 {
      JoinedMeaning([], path, MAX_PATH);
    } else {
      JoinedMeaning(start.name, path, MAX_PATH);
    }
    var w := Wanted(start, path);
    SplitTrailing(Render(w));
    SplitRender(w);
    StackOfOrdinary(w);
  }

  lemma {:induction false} BehindText(name: Text, t: Text)
    requires !Volume(name) && t != [] && t[0] != '/'
    ensures Behind(name, t) == t && Behind(name, "/" + t) == t
  {
    assert ("/" + t)[1..] == t;
  }

  /** What lies behind the directory's name: the components the name does not have. */
  lemma {:induction false} BehindMeaning(n: seq<Text>, r: seq<Text>, name: Text, abs: Text)
    requires AllOrdinary(r) && name == "/" + Render(n) && abs == "/" + Render(n + r) && !Volume(name)
    ensures |name| <= |abs| && Behind(name, abs[|name|..]) == if r == [] then "." else Render(r)
  {
    if r == [] {
      assert n + r == n;
    } else {
      RenderHead(r);
      LeadAppend(n, r);
      BehindText(name, Render(r));
      if n == [] {
        assert abs[|name|..] == Render(r);
      } else {
        assert abs == name + "/" + Render(r);
        assert abs[|name|..] == "/" + Render(r);
      }
    }
  }

  /** The chosen directory is above the path, no supplied directory that is above it is deeper,
      and its components followed by the remainder's are the path's. The remainder is `.` or
      ordinary components: never absolute, never empty, never ascending, never cut short. */
  ghost predicate Reaches(pre: seq<Preopen>, w: seq<Text>, b: nat, r: Resolution) {
    && b < |pre| && Above(pre[b].name, w)
    && var n := Split(pre[b].name);
       && AllOrdinary(w[|n|..])
       && r == At(pre[b].dir, if n == w then "." else Render(w[|n|..]))
       && (n < w ==> Split(r.rel) == w[|n|..])
       && forall j :: 0 <= j < |pre| && Above(pre[j].name, w) ==> |Split(pre[j].name)| <= |n|
  }

  lemma {:induction false} DeeperAbove(a: Text, b: Text, w: seq<Text>)
    requires Above(a, w) && Above(b, w) && AllOrdinary(w) && |Split(a)| < |Split(b)|
    ensures |a| < |b|
  {
    NormalMeans(a);
    NormalMeans(b);
    assert Split(a) == w[..|Split(a)|] && Split(b) == w[..|Split(b)|];
    DeeperNameIsLonger(w, |Split(a)|, |Split(b)|);
  }

  lemma {:induction false} BestIsDeepest(pre: seq<Preopen>, w: seq<Text>, abs: Text, b: nat, j: nat)
    requires AllSpelled(pre) && AllOrdinary(w) && Best(pre, abs, b) && j < |pre|
    requires IsNormal(abs) && Split(abs) == w
    ensures Above(pre[b].name, w)
    ensures Above(pre[j].name, w) ==> |Split(pre[j].name)| <= |Split(pre[b].name)|
  {
    AboveMeaning(pre[b].name, abs);
    AboveMeaning(pre[j].name, abs);
    if Above(pre[j].name, w) && |Split(pre[j].name)| > |Split(pre[b].name)| {
      DeeperAbove(pre[b].name, pre[j].name, w);
    }
  }

  lemma {:induction false} BestReaches(pre: seq<Preopen>, w: seq<Text>, abs: Text, b: nat)
    requires AllSpelled(pre) && AllOrdinary(w) && Best(pre, abs, b)
    requires abs == "/" + Render(w) && IsNormal(abs) && Split(abs) == w
    ensures Reaches(pre, w, b, At(pre[b].dir, Behind(pre[b].name, abs[|pre[b].name|..])))
  {
    var n := Split(pre[b].name);
    forall j | 0 <= j < |pre| ensures Above(pre[j].name, w) ==> |Split(pre[j].name)| <= |n| {
      BestIsDeepest(pre, w, abs, b, j);
    }
    BestIsDeepest(pre, w, abs, b, b);
    var r := w[|n|..];
    assert w == n + r;
    NormalMeans(pre[b].name);
    BehindMeaning(n, r, pre[b].name, abs);
    SplitRender(r);
  }

  /** A supplied directory's name is one of the path's prefixes exactly when its components are. */
  lemma PrefixesMean(start: Start, path: Text, pre: seq<Preopen>)
    requires FromSlash(start, path) && AllSpelled(pre) && Absolute(start, path).Some?
    ensures forall j :: 0 <= j < |pre| ==>
      (Prefixes(pre[j].name, Absolute(start, path).value) <==> Above(pre[j].name, Wanted(start, path)))
  {
    AbsoluteMeaning(start, path);
    var w, abs := Wanted(start, path), Absolute(start, path).value;
    forall j | 0 <= j < |pre| ensures Prefixes(pre[j].name, abs) <==> Above(pre[j].name, w) {
      AboveMeaning(pre[j].name, abs);
    }
  }

  lemma {:induction false} LandingReaches(start: Start, path: Text, pre: seq<Preopen>, b: nat)
    requires FromSlash(start, path) && AllSpelled(pre) && Absolute(start, path).Some?
    requires Best(pre, Absolute(start, path).value, b)
    ensures var abs := Absolute(start, path).value;
      Reaches(pre, Wanted(start, path), b, At(pre[b].dir, Behind(pre[b].name, abs[|pre[b].name|..])))
  {
    AbsoluteMeaning(start, path);
    BestReaches(pre, Wanted(start, path), Absolute(start, path).value, b);
  }

  lemma ResolvesFromSlash(start: Start, path: Text, emptyOk: bool, pre: seq<Preopen>, r: Resolution)
    requires Resolves(start, Some(path), emptyOk, pre, r) && FromSlash(start, path) && (path != [] || emptyOk)
    ensures if Absolute(start, path).None? then r == Error(-ENAMETOOLONG)
            else Lands(pre, Absolute(start, path).value, r)
  {
  }

  /** Every name beneath the separator that is resolved is reached through the deepest supplied
      directory above it, and through no other; a name above which nothing was supplied is not
      reached at all. */
  lemma Confinement(start: Start, path: Text, emptyOk: bool, pre: seq<Preopen>, r: Resolution)
    requires Resolves(start, Some(path), emptyOk, pre, r)
    requires FromSlash(start, path) && AllSpelled(pre) && (path != [] || emptyOk)
    ensures r.At? ==> exists b: nat :: Reaches(pre, Wanted(start, path), b, r)
    ensures r == Error(-ENOENT) <==>
              && Absolute(start, path).Some?
              && forall j :: 0 <= j < |pre| ==> !Above(pre[j].name, Wanted(start, path))
    ensures r.Error? && r.code != -ENOENT <==> Absolute(start, path).None?
  {
    ResolvesFromSlash(start, path, emptyOk, pre, r);
    if Absolute(start, path).Some? {
      var abs := Absolute(start, path).value;
      PrefixesMean(start, path, pre);
      if r.At? {
        var b: nat :| Best(pre, abs, b) && r == At(pre[b].dir, Behind(pre[b].name, abs[|pre[b].name|..]));
        LandingReaches(start, path, pre, b);
      }
    }
  }

  /** Beneath a directory without a name: what is left of the path when dots are applied, and never above the
      directory. Only a path about as long as the buffer is refused. */
  lemma {:induction false} BeneathUnnamed(dir: Handle, path: Text, emptyOk: bool, pre: seq<Preopen>, r: Resolution)
    requires Resolves(Unnamed(dir), Some(path), emptyOk, pre, r) && RootLength(path) == 0 && (path != [] || emptyOk)
    ensures r.At? ==> r.base == dir && AllOrdinary(Stack(Split(path)))
    ensures r.At? ==> if Stack(Split(path)) == [] then r.rel == "." else Split(r.rel) == Stack(Split(path))
    ensures r.Error? ==> r == Error(-ENAMETOOLONG) && |path| + 2 > MAX_PATH
  {
    NotNormal(path);
    SplitComponents(path);
    StackOrdinary(Split(path));
    SplitRender(Stack(Split(path)));
    SplitIsShorter(path);
    if |path| + 2 <= MAX_PATH { ShortFits(Split(path), MAX_PATH); }
  }

  /** No name without a separator in front is in normal form. */
  lemma NotNormal(path: Text)
    requires path == [] || path[0] != '/'
    ensures !IsNormal(path)
  {
  }

  /** Each error has its cause: no path, an empty one that may not be, one to be resolved against what is no
      directory, one above which nothing is supplied, one that is too long. */
  lemma ErrorsTell(start: Start, path: Option<Text>, emptyOk: bool, pre: seq<Preopen>, r: Resolution)
    requires Resolves(start, path, emptyOk, pre, r)
    ensures r == Error(-EFAULT) <==> path.None?
    ensures path == Some([]) && !emptyOk ==> r == Error(-ENOENT)
    ensures path.Some? && (path.value != [] || emptyOk) ==>
              (r == Error(-ENOTDIR) <==> RootLength(path.value) == 0 && start.NotDirectory?)
    ensures r.Error? ==> r.code in {-EFAULT, -ENOENT, -ENOTDIR, -ENAMETOOLONG}
    ensures r == Error(-ENAMETOOLONG) && !start.Unnamed? ==> path.Some? && Absolute(start, path.value).None?
  {
  }
}
