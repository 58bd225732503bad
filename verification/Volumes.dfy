/**
  Names that begin with a volume: what joining makes of them, which supplied directories are above them without
  regard to case or kind of separator, and by what remainder they are reached.
*/
module Volumes {
  import opened Options
  import opened Components
  import opened Names
  import opened Resolver

  // --- what joining makes of them ---

  lemma SlashedClean(s: Text)
    ensures '\\' !in Slashed(s)
  {
  }

  /** A name with a volume of its own: the volume, one separator, and the components of what follows, cut at either
      separator. What it is joined to has no part in it. */
  lemma OwnVolume(prefix: Text, v: char, sep: char, body: Text, cap: nat)
    requires Letter(v) && (sep == '/' || sep == '\\')
    ensures var joined := Joined(prefix, [v, ':', sep] + body, cap);
      joined.Some? ==> joined.value == [v, ':', '/'] + Render(Stack(Split(Slashed(body))))
  {
    var rel := [v, ':', sep] + body;
    assert v != '/' && rel[0] == v && rel[1] == ':' && rel[2] == sep;
    assert RootLength(rel) == 3 && rel[..3] == [v, ':', sep] && rel[3..] == body;
    assert Slashed(rel[..3]) == [v, ':', '/'];
  }

  lemma SlashedEnded(b: Text, rel: Text)
    ensures Split(Slashed(Ended(b) + rel)) == Split(Slashed(b)) + Split(Slashed(rel))
  {
    var s := Slashed(Ended(b) + rel);
    if b == [] {
      assert Ended(b) + rel == rel;
    } else if b[|b| - 1] == '/' {
      var u := b[..|b| - 1];
      assert s == Slashed(u) + "/" + Slashed(rel);
      SplitAround(Slashed(u), Slashed(rel));
      assert Slashed(b) == Slashed(u) + "/";
      SplitTrailing(Slashed(u));
    } else {
      assert s == Slashed(b) + "/" + Slashed(rel);
      SplitAround(Slashed(b), Slashed(rel));
    }
  }

  /** A name without a root, joined to one with a volume. */
  lemma VolumeOfThePrefix(v: char, sep: char, b: Text, rel: Text, cap: nat)
    requires Letter(v) && (sep == '/' || sep == '\\') && RootLength(rel) == 0
    ensures var joined := Joined([v, ':', sep] + b, rel, cap);
      joined.Some? ==> joined.value == [v, ':', '/'] + Render(Stack(Split(Slashed(b)) + Split(Slashed(rel))))
  {
    var prefix := [v, ':', sep] + b;
    assert v != '/' && prefix[0] == v && prefix[1] == ':' && prefix[2] == sep;
    assert RootLength(prefix) == 3 && prefix[..3] == [v, ':', sep] && prefix[3..] == b;
    assert Slashed(prefix[..3]) == [v, ':', '/'];
    SlashedEnded(b, rel);
  }

  /** Two names without a root: the components of both, and no root. */
  lemma {:induction false} NoRoot(prefix: Text, rel: Text, cap: nat)
    requires RootLength(prefix) == 0 && RootLength(rel) == 0
    ensures var joined := Joined(prefix, rel, cap);
      joined.Some? ==> joined.value == Render(Stack(Split(prefix) + Split(rel)))
  {
    assert prefix[0..] == prefix && Slashed(prefix[..0]) == [];
    SplitEnded(prefix, rel);
    var all := Render(Stack(Split(prefix) + Split(rel)));
    assert [] + all == all;
  }

  // --- without regard to case or separator ---

  function Folded(c: char): char { Lower(Slash(c)) }

  function Fold(s: Text): (r: Text)
    ensures |r| == |s| && forall i :: 0 <= i < |s| ==> r[i] == Folded(s[i])
  {
    seq(|s|, i requires 0 <= i < |s| => Folded(s[i]))
  }

  /** Each capital becomes its small letter, a backslash a separator, and every other character stays. */
  lemma FoldedIs(c: char)
    ensures 'A' <= c <= 'Z' ==> 'a' <= Folded(c) <= 'z' && Folded(c) - 'a' == c - 'A'
    ensures c == '\\' ==> Folded(c) == '/'
    ensures !('A' <= c <= 'Z') && c != '\\' ==> Folded(c) == c
    ensures Folded(c) == '/' <==> Separator(c)
  {
  }

  lemma SameCharFolds(a: char, b: char)
    ensures SameChar(a, b, true) <==> Folded(a) == Folded(b)
  {
    FoldedIs(a);
    FoldedIs(b);
  }

  /** One text begins another, up to where a component ends. */
  predicate Starts(n: Text, x: Text) {
    && n != [] && |n| <= |x| && x[..|n|] == n
    && (n[|n| - 1] == '/' || |x| == |n| || x[|n|] == '/')
  }

  lemma PrefixFolds(name: Text, abs: Text)
    requires Volume(name)
    ensures Prefixes(name, abs) <==> Starts(Fold(name), Fold(abs))
  {
    var n, x := Fold(name), Fold(abs);
    if |name| <= |abs| {
      forall i | 0 <= i < |name| ensures SameChar(abs[i], name[i], true) <==> x[i] == n[i] {
        SameCharFolds(abs[i], name[i]);
      }
      assert (forall i :: 0 <= i < |name| ==> x[i] == n[i]) <==> x[..|n|] == n;
      FoldedIs(name[|name| - 1]);
      if |abs| > |name| { FoldedIs(abs[|name|]); }
    }
  }

  lemma {:induction false} StartsIsPrefix(n: Text, x: Text)
    requires Starts(n, x)
    ensures Split(n) <= Split(x)
  {
    if |x| == |n| {
      assert x == n;
    } else if n[|n| - 1] == '/' {
      var u := n[..|n| - 1];
      assert n == u + "/" && x == u + "/" + x[|n|..];
      SplitTrailing(u);
      SplitAround(u, x[|n|..]);
    } else {
      assert x == n + "/" + x[|n| + 1..];
      SplitAround(n, x[|n| + 1..]);
    }
  }

  // --- the directories above a name ---

  /** The components of a volume's name, the volume first, without regard to case or separator. */
  function Parts(name: Text): seq<Text> { Split(Fold(name)) }

  /** A supplied directory on a volume: its components with one separator between them, and where there is only
      the volume, perhaps one behind it. */
  ghost predicate OnVolume(name: Text) {
    && Volume(name) && Parts(name) != [] && AllOrdinary(Parts(name))
    && (Fold(name) == Render(Parts(name)) || (|Parts(name)| == 1 && Fold(name) == Parts(name)[0] + "/"))
  }

  /** An absolute name on a volume, as joining leaves it. */
  ghost predicate AbsoluteOn(abs: Text, v: char, w: seq<Text>) {
    Letter(v) && AllOrdinary(w) && Plainly(w) && abs == [v, ':', '/'] + Render(w)
  }

  /** No component holds a backslash. */
  ghost predicate Plainly(w: seq<Text>) { forall i :: 0 <= i < |w| ==> '\\' !in w[i] }

  function FoldAll(w: seq<Text>): (r: seq<Text>)
    ensures |r| == |w| && forall i :: 0 <= i < |w| ==> r[i] == Fold(w[i])
  {
    seq(|w|, i requires 0 <= i < |w| => Fold(w[i]))
  }

  lemma FoldJoin(a: Text, b: Text)
    ensures Fold(a + "/" + b) == Fold(a) + "/" + Fold(b)
    ensures Fold(a + b) == Fold(a) + Fold(b)
  {
  }

  lemma {:induction false} FoldRender(w: seq<Text>)
    ensures Fold(Render(w)) == Render(FoldAll(w)) && |Render(FoldAll(w))| == |Render(w)|
    decreases |w|
  {
    if |w| > 1 {
      var k := |w| - 1;
      FoldRender(w[..k]);
      FoldJoin(Render(w[..k]), w[k]);
      assert FoldAll(w)[..k] == FoldAll(w[..k]);
    }
  }

  lemma FoldDots(c: Text)
    ensures Fold(c) == "." ==> c == "."
    ensures Fold(c) == ".." ==> c == ".."
  {
    var f := Fold(c);
    forall i | 0 <= i < |c| ensures f[i] == '.' ==> c[i] == '.' { FoldedIs(c[i]); }
  }

  lemma FoldOrdinary(c: Text)
    requires Ordinary(c) && '\\' !in c
    ensures Ordinary(Fold(c))
  {
    var f := Fold(c);
    forall i | 0 <= i < |c| ensures f[i] != '/' {
      assert c[i] in c;
      FoldedIs(c[i]);
    }
    FoldDots(c);
  }

  /** The components of such a name. */
  function PartsOn(v: char, w: seq<Text>): seq<Text> { [[Lower(v), ':']] + FoldAll(w) }

  lemma VolumePart(v: char)
    requires Letter(v)
    ensures Ordinary([Lower(v), ':']) && Fold([v, ':', '/']) == [Lower(v), ':'] + "/"
  {
    FoldedIs(v);
    var c := [Lower(v), ':'];
    assert |c| == 2 && c[1] == ':';
  }

  lemma {:induction false} AbsoluteParts(abs: Text, v: char, w: seq<Text>)
    requires AbsoluteOn(abs, v, w)
    ensures Fold(abs) == [Lower(v), ':'] + "/" + Render(FoldAll(w))
    ensures Parts(abs) == PartsOn(v, w) && AllOrdinary(PartsOn(v, w))
  {
    VolumePart(v);
    FoldRender(w);
    FoldJoin([v, ':', '/'], Render(w));
    forall i | 0 <= i < |w| ensures Ordinary(FoldAll(w)[i]) { FoldOrdinary(w[i]); }
    SplitAround([Lower(v), ':'], Render(FoldAll(w)));
    SplitOne([Lower(v), ':']);
    SplitRender(FoldAll(w));
  }

  /** A list's rendering and that of any list it begins. */
  lemma {:induction false} RenderStarts(n: seq<Text>, r: seq<Text>, x: Text)
    requires AllOrdinary(n) && n != [] && r != [] && x == Render(n + r)
    ensures Starts(Render(n), x) && x == Render(n) + "/" + Render(r)
  {
    RenderConcat(n, r);
    RenderHead(n);
  }

  /** The text of a name on a volume, with the volume as one component more. */
  lemma {:induction false} AbsoluteText(c: Text, f: seq<Text>, x: Text)
    requires x == c + "/" + Render(f)
    ensures x == if f == [] then c + "/" else Render([c] + f)
  {
    if f != [] {
      RenderConcat([c], f);
    } else {
      assert c + "/" + [] == c + "/";
    }
  }

  /** A list begins the text of its first part, of itself, and of what it begins. */
  lemma {:induction false} TextStarts(n: seq<Text>, c: Text, f: seq<Text>, x: Text)
    requires AllOrdinary(n) && n != [] && n <= [c] + f && x == c + "/" + Render(f)
    ensures Starts(Render(n), x)
    ensures |n| == 1 ==> Starts(n[0] + "/", x)
  {
    var all := [c] + f;
    AbsoluteText(c, f, x);
    RenderHead(n);
    if |n| == 1 {
      assert n[0] == all[0] && Render(n) == c;
    } else if n != all {
      assert all == n + all[|n|..];
      RenderStarts(n, all[|n|..], x);
    }
  }

  lemma {:induction false} PartsStart(name: Text, abs: Text, v: char, w: seq<Text>)
    requires OnVolume(name) && AbsoluteOn(abs, v, w) && Parts(name) <= PartsOn(v, w)
    ensures Starts(Fold(name), Fold(abs))
  {
    AbsoluteParts(abs, v, w);
    TextStarts(Parts(name), [Lower(v), ':'], FoldAll(w), Fold(abs));
  }

  /** Comparing characters without regard to case and separator is comparing components so. */
  lemma {:induction false} VolumePrefix(name: Text, abs: Text, v: char, w: seq<Text>)
    requires OnVolume(name) && AbsoluteOn(abs, v, w)
    ensures Prefixes(name, abs) <==> Parts(name) <= PartsOn(v, w)
  {
    PrefixFolds(name, abs);
    AbsoluteParts(abs, v, w);
    if Prefixes(name, abs) { StartsIsPrefix(Fold(name), Fold(abs)); }
    if Parts(name) <= PartsOn(v, w) { PartsStart(name, abs, v, w); }
  }

  /** A directory beneath the separator is above no name on a volume. */
  lemma NotAcross(name: Text, abs: Text, v: char, w: seq<Text>)
    requires Plain(name) && AbsoluteOn(abs, v, w)
    ensures !Prefixes(name, abs)
  {
    NormalMeans(name);
    assert name[0] == '/' && abs[0] == v;
  }

  // --- how it is reached ---

  lemma PartsAre(n: seq<Text>, v: char, w: seq<Text>)
    requires n != [] && n <= PartsOn(v, w)
    ensures |n| - 1 <= |w| && n == [[Lower(v), ':']] + FoldAll(w[..|n| - 1])
  {
  }

  lemma {:induction false} NameLength(name: Text, v: char, u: seq<Text>)
    requires OnVolume(name) && Parts(name) == [[Lower(v), ':']] + FoldAll(u)
    ensures |name| == (if u == [] then 2 else 3 + |Render(u)|) || (u == [] && |name| == 3)
  {
    var c: Text := [Lower(v), ':'];
    FoldRender(u);
    assert |Fold(name)| == |name|;
    if u == [] {
      assert Parts(name) == [c];
      assert Render([c]) == c;
    } else {
      RenderConcat([c], FoldAll(u));
      assert Render([c]) == c;
    }
  }

  /** What follows a number of characters of a name on a volume. */
  lemma {:induction false} Following(abs: Text, v: char, u: seq<Text>, r: seq<Text>)
    requires abs == [v, ':', '/'] + Render(u + r)
    ensures u == [] ==> abs[2..] == "/" + Render(r) && abs[3..] == Render(r)
    ensures u != [] ==> 3 + |Render(u)| <= |abs| && abs[3 + |Render(u)|..] == if r == [] then [] else "/" + Render(r)
  {
    if u == [] {
      assert u + r == r;
    } else if r == [] {
      assert u + r == u;
    } else {
      RenderConcat(u, r);
      assert abs == ([v, ':', '/'] + Render(u)) + ("/" + Render(r));
    }
  }

  lemma {:induction false} RestOf(name: Text, abs: Text, v: char, u: seq<Text>, r: seq<Text>)
    requires OnVolume(name) && Parts(name) == [[Lower(v), ':']] + FoldAll(u) && abs == [v, ':', '/'] + Render(u + r)
    ensures |name| <= |abs| && (abs[|name|..] == Render(r) || abs[|name|..] == "/" + Render(r))
  {
    NameLength(name, v, u);
    Following(abs, v, u, r);
  }

  lemma {:induction false} BehindRest(name: Text, rest: Text, t: Text)
    requires Volume(name) && (rest == t || rest == "/" + t) && (t != [] ==> !Separator(t[0]))
    ensures Behind(name, rest) == if t == [] then "." else t
  {
    assert ("/" + t)[1..] == t;
  }

  /** What is left behind the parts of a directory. */
  lemma {:induction false} LeftBehind(name: Text, abs: Text, v: char, w: seq<Text>)
    requires OnVolume(name) && AbsoluteOn(abs, v, w) && Parts(name) <= PartsOn(v, w)
    ensures |name| <= |abs| && |Parts(name)| - 1 <= |w|
    ensures Behind(name, abs[|name|..]) == if |Parts(name)| - 1 == |w| then "." else Render(w[|Parts(name)| - 1..])
  {
    var k := |Parts(name)| - 1;
    PartsAre(Parts(name), v, w);
    var u, r := w[..k], w[k..];
    assert w == u + r;
    RestOf(name, abs, v, u, r);
    if k < |w| { NotSeparators(w, k); }
    BehindRest(name, abs[|name|..], Render(r));
  }

  /** Behind a separator no component begins with one. */
  lemma {:induction false} NotSeparators(w: seq<Text>, k: nat)
    requires AllOrdinary(w) && Plainly(w) && k < |w|
    ensures Render(w[k..]) != [] && !Separator(Render(w[k..])[0])
  {
    assert AllComponents(w[k..]) by { assert forall i :: 0 <= i < |w| - k ==> w[k..][i] == w[k + i]; }
    RenderHead(w[k..]);
    assert Ordinary(w[k]) && w[k][0] in w[k];
  }

  lemma {:induction false} BehindVolume(name: Text, t: Text)
    requires t != [] ==> !Separator(t[0])
    ensures Behind(name, t) == Behind(name, "/" + t) == if t == [] then "." else t
  {
    assert ("/" + t)[1..] == t;
  }

  /** The supplied directories are on volumes or beneath the separator. */
  ghost predicate Known(pre: seq<Preopen>) {
    forall j :: 0 <= j < |pre| ==> OnVolume(pre[j].name) || Plain(pre[j].name)
  }

  /** So they are spelled as confinement beneath the separator needs them. */
  lemma KnownAreSpelled(pre: seq<Preopen>)
    requires Known(pre)
    ensures AllSpelled(pre)
  {
    forall j | 0 <= j < |pre| && OnVolume(pre[j].name) ensures pre[j].name != [] && !Separator(pre[j].name[0]) {
      var name := pre[j].name;
      FoldedIs(name[0]);
      RenderHead(Parts(name));
    }
  }

  /** Such a directory is above the name. */
  ghost predicate IsAbove(name: Text, v: char, w: seq<Text>) { OnVolume(name) && Parts(name) <= PartsOn(v, w) }

  lemma AboveExactly(pre: seq<Preopen>, abs: Text, v: char, w: seq<Text>)
    requires Known(pre) && AbsoluteOn(abs, v, w)
    ensures forall j :: 0 <= j < |pre| ==> (Prefixes(pre[j].name, abs) <==> IsAbove(pre[j].name, v, w))
  {
    forall j | 0 <= j < |pre| ensures Prefixes(pre[j].name, abs) <==> IsAbove(pre[j].name, v, w) {
      if OnVolume(pre[j].name) { VolumePrefix(pre[j].name, abs, v, w); } else { NotAcross(pre[j].name, abs, v, w); }
    }
  }

  lemma OnVolumeLength(name: Text)
    requires OnVolume(name)
    ensures |Render(Parts(name))| <= |name| <= |Render(Parts(name))| + 1
  {
    assert |Fold(name)| == |name|;
    assert |Parts(name)| == 1 ==> Render(Parts(name)) == Parts(name)[0];
  }

  lemma {:induction false} DeeperRenders(m: seq<Text>, n: seq<Text>)
    requires AllOrdinary(n) && m < n && m != []
    ensures |Render(m)| + 1 < |Render(n)|
  {
    var r := n[|m|..];
    assert n == m + r;
    assert AllComponents(r) by { assert forall i :: 0 <= i < |r| ==> r[i] == n[|m| + i]; }
    RenderGrows(m, r);
  }

  /** Of two directories above one name the deeper has the longer name. */
  lemma {:induction false} DeeperIsLonger(a: Text, b: Text, all: seq<Text>)
    requires OnVolume(a) && OnVolume(b) && Parts(a) <= all && Parts(b) <= all && |Parts(a)| < |Parts(b)|
    ensures |a| < |b|
  {
    assert Parts(a) == all[..|Parts(a)|] && Parts(b) == all[..|Parts(b)|];
    DeeperRenders(Parts(a), Parts(b));
    OnVolumeLength(a);
    OnVolumeLength(b);
  }

  /** The deepest supplied directory above a name on a volume, and the rest of its components as they were written. */
  ghost predicate ReachedBy(pre: seq<Preopen>, v: char, w: seq<Text>, b: nat, r: Resolution) {
    && b < |pre| && IsAbove(pre[b].name, v, w)
    && var k := |Parts(pre[b].name)| - 1;
       && r == At(pre[b].dir, if k == |w| then "." else Render(w[k..]))
       && AllOrdinary(w[k..])
       && forall j :: 0 <= j < |pre| && IsAbove(pre[j].name, v, w) ==> |Parts(pre[j].name)| <= k + 1
  }

  lemma {:induction false} BestIsReached(pre: seq<Preopen>, abs: Text, v: char, w: seq<Text>, b: nat)
    requires Known(pre) && AbsoluteOn(abs, v, w) && Best(pre, abs, b)
    ensures |pre[b].name| <= |abs|
    ensures ReachedBy(pre, v, w, b, At(pre[b].dir, Behind(pre[b].name, abs[|pre[b].name|..])))
  {
    AboveExactly(pre, abs, v, w);
    var name := pre[b].name;
    LeftBehind(name, abs, v, w);
    forall j | 0 <= j < |pre| && IsAbove(pre[j].name, v, w) ensures |Parts(pre[j].name)| <= |Parts(name)| {
      if |Parts(name)| < |Parts(pre[j].name)| { DeeperIsLonger(name, pre[j].name, PartsOn(v, w)); }
    }
  }

  lemma {:induction false} LandingConfined(pre: seq<Preopen>, abs: Text, v: char, w: seq<Text>, r: Resolution)
    requires Known(pre) && AbsoluteOn(abs, v, w) && Lands(pre, abs, r)
    ensures r.At? ==> exists b: nat :: ReachedBy(pre, v, w, b, r)
    ensures r.Error? <==> forall j :: 0 <= j < |pre| ==> !IsAbove(pre[j].name, v, w)
    ensures r.Error? ==> r == Error(-ENOENT)
  {
    AboveExactly(pre, abs, v, w);
    if r.At? {
      var b: nat :| Best(pre, abs, b) && r == At(pre[b].dir, Behind(pre[b].name, abs[|pre[b].name|..]));
      BestIsReached(pre, abs, v, w, b);
    }
  }

  // --- names as a program gives them ---

  predicate HasVolume(name: Text, v: char) {
    |name| >= 3 && Letter(v) && name[0] == v && name[1] == ':' && Separator(name[2])
  }

  /** A path is one on a volume: its own, or that of what it is resolved against. */
  predicate FromVolume(start: Start, path: Text, v: char) {
    || HasVolume(path, v)
    || (RootLength(path) == 0 && (start.Cwd? || start.Directory?) && HasVolume(start.name, v))
  }

  /** The components behind the volume, resolved lexically. */
  function WantedOn(start: Start, path: Text, v: char): seq<Text>
    requires FromVolume(start, path, v)
  {
    if HasVolume(path, v) then Stack(Split(Slashed(path[3..])))
    else Stack(Split(Slashed(start.name[3..])) + Split(Slashed(path)))
  }

  lemma {:induction false} SplitPlainly(s: Text)
    requires '\\' !in s
    ensures Plainly(Split(s)) && AllComponents(Split(s))
    decreases |s|
  {
    SplitComponents(s);
    if s != [] {
      if s[0] == '/' { SplitPlainly(s[1..]); } else { SplitPlainly(s[Run(s)..]); }
    }
  }

  lemma {:induction false} StackPlainly(cs: seq<Text>)
    requires Plainly(cs)
    ensures Plainly(Stack(cs))
    decreases |cs|
  {
    if cs != [] { StackPlainly(cs[..|cs| - 1]); }
  }

  lemma StackOfSlashed(a: Text, b: Text)
    ensures Plainly(Stack(Split(Slashed(a)) + Split(Slashed(b)))) && Plainly(Stack(Split(Slashed(a))))
    ensures AllOrdinary(Stack(Split(Slashed(a)) + Split(Slashed(b)))) && AllOrdinary(Stack(Split(Slashed(a))))
  {
    SplitPlainly(Slashed(a));
    SplitPlainly(Slashed(b));
    StackPlainly(Split(Slashed(a)));
    StackOrdinary(Split(Slashed(a)));
    StackPlainly(Split(Slashed(a)) + Split(Slashed(b)));
    StackOrdinary(Split(Slashed(a)) + Split(Slashed(b)));
  }

  lemma OwnIsOn(v: char, name: Text, j: Option<Text>)
    requires HasVolume(name, v) && j == Joined([], name, MAX_PATH) && j.Some?
    ensures AbsoluteOn(j.value, v, Stack(Split(Slashed(name[3..]))))
  {
    assert name == [v, ':', name[2]] + name[3..];
    OwnVolume([], v, name[2], name[3..], MAX_PATH);
    StackOfSlashed(name[3..], []);
  }

  lemma PrefixIsOn(v: char, name: Text, path: Text, j: Option<Text>)
    requires HasVolume(name, v) && RootLength(path) == 0 && j == Joined(name, path, MAX_PATH) && j.Some?
    ensures AbsoluteOn(j.value, v, Stack(Split(Slashed(name[3..])) + Split(Slashed(path))))
  {
    assert name == [v, ':', name[2]] + name[3..];
    VolumeOfThePrefix(v, name[2], name[3..], path, MAX_PATH);
    StackOfSlashed(name[3..], path);
  }

  lemma AbsoluteIs(start: Start, path: Text, v: char)
    requires FromVolume(start, path, v)
    ensures HasVolume(path, v) ==> Absolute(start, path) == Joined([], path, MAX_PATH)
    ensures !HasVolume(path, v) ==> (start.Cwd? || start.Directory?) && HasVolume(start.name, v)
    ensures !HasVolume(path, v) ==> RootLength(path) == 0 && Absolute(start, path) == Joined(start.name, path, MAX_PATH)
  {
    NotNormal(path);
  }

  lemma AbsoluteOnVolume(start: Start, path: Text, v: char)
    requires FromVolume(start, path, v) && Absolute(start, path).Some?
    ensures AbsoluteOn(Absolute(start, path).value, v, WantedOn(start, path, v))
  {
    AbsoluteIs(start, path, v);
    if HasVolume(path, v) {
      OwnIsOn(v, path, Absolute(start, path));
    } else {
      PrefixIsOn(v, start.name, path, Absolute(start, path));
    }
  }

  /** Every name on a volume that is resolved is reached through the deepest supplied directory above it, whatever
      case and separators the two are written with, and through no other; one above which nothing was supplied is not
      reached. */
  lemma {:induction false} VolumeConfinement(start: Start, path: Text, emptyOk: bool, pre: seq<Preopen>, r: Resolution,
                                             v: char)
    requires Resolves(start, Some(path), emptyOk, pre, r) && Known(pre) && FromVolume(start, path, v)
    requires path != [] || emptyOk
    ensures r.At? ==> exists b: nat :: ReachedBy(pre, v, WantedOn(start, path, v), b, r)
    ensures r == Error(-ENOENT) <==>
              && Absolute(start, path).Some?
              && forall j :: 0 <= j < |pre| ==> !IsAbove(pre[j].name, v, WantedOn(start, path, v))
    ensures r.Error? && r.code != -ENOENT <==> Absolute(start, path).None?
  {
    assert RootLength(path) == 0 ==> start.Cwd? || start.Directory?;
    if Absolute(start, path).Some? {
      AbsoluteOnVolume(start, path, v);
      LandingConfined(pre, Absolute(start, path).value, v, WantedOn(start, path, v), r);
    }
  }
}
