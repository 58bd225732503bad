/**
  What a path means: the components it names, the stack they leave when `.` and `..` are
  applied lexically, and the text that names a stack again.
*/
module Components {

  type Text = seq<char>

  /** The length of the run of characters before the first separator. */
  function Run(s: Text): (n: nat)
    ensures n <= |s|
  {
    if s == [] || s[0] == '/' then 0 else 1 + Run(s[1..])
  }

  /** The components of a path, in order; empty ones are not components. */
  function Split(s: Text): seq<Text>
    decreases |s|
  {
    if s == [] then []
    else if s[0] == '/' then Split(s[1..])
    else [s[..Run(s)]] + Split(s[Run(s)..])
  }

  predicate Component(c: Text) { c != [] && '/' !in c }

  /** A component that names something, rather than this directory or the one above. */
  predicate Ordinary(c: Text) { Component(c) && c != "." && c != ".." }

  function Push(stack: seq<Text>, c: Text): seq<Text> {
    if c == "." then stack
    else if c == ".." then (if stack == [] then [] else stack[..|stack| - 1])
    else stack + [c]
  }

  /** The stack that a list of components leaves, beginning with an empty one. */
  function Stack(cs: seq<Text>): seq<Text>
    decreases |cs|
  {
    if cs == [] then [] else Push(Stack(cs[..|cs| - 1]), cs[|cs| - 1])
  }

  function Render(stack: seq<Text>): Text
    decreases |stack|
  {
    if stack == [] then []
    else if |stack| == 1 then stack[0]
    else Render(stack[..|stack| - 1]) + "/" + stack[|stack| - 1]
  }

  ghost predicate AllComponents(cs: seq<Text>) { forall i :: 0 <= i < |cs| ==> Component(cs[i]) }
  ghost predicate AllOrdinary(cs: seq<Text>) { forall i :: 0 <= i < |cs| ==> Ordinary(cs[i]) }

  // ----- splitting -----

  lemma {:induction false} RunOf(s: Text, n: nat)
    requires n <= |s| && '/' !in s[..n] && (n < |s| ==> s[n] == '/')
    ensures Run(s) == n
  {
    if n > 0 {
      assert s[0] == s[..n][0];
      assert s[1..][..n - 1] == s[..n][1..];
      RunOf(s[1..], n - 1);
    }
  }

  lemma {:induction false} RunEnds(s: Text)
    ensures '/' !in s[..Run(s)] && (Run(s) < |s| ==> s[Run(s)] == '/')
  {
    if s != [] && s[0] != '/' {
      RunEnds(s[1..]);
      assert s[..Run(s)] == [s[0]] + s[1..][..Run(s[1..])];
    }
  }

  lemma {:induction false} SplitStep(s: Text, n: nat)
    requires 0 < n <= |s| && '/' !in s[..n] && (n < |s| ==> s[n] == '/')
    ensures Split(s) == [s[..n]] + Split(s[n..])
  {
    RunOf(s, n);
    assert s[0] == s[..n][0];
  }

  lemma {:induction false} SplitComponents(s: Text)
    ensures AllComponents(Split(s))
    decreases |s|
  {
    if s == [] {
    } else if s[0] == '/' {
      SplitComponents(s[1..]);
    } else {
      RunEnds(s);
      SplitComponents(s[Run(s)..]);
    }
  }

  /** Components do not reach across a separator. */
  lemma {:induction false} SplitAround(a: Text, b: Text)
    ensures Split(a + "/" + b) == Split(a) + Split(b)
    decreases |a|
  {
    var s := a + "/" + b;
    if a == [] {
      assert s[1..] == b;
    } else if a[0] == '/' {
      assert s[1..] == a[1..] + "/" + b;
      SplitAround(a[1..], b);
    } else {
      var n := Run(a);
      RunEnds(a);
      assert s[..n] == a[..n] && s[n..] == a[n..] + "/" + b;
      SplitStep(s, n);
      SplitAround(a[n..], b);
    }
  }

  /** A separator at the end adds nothing, nor does one at the beginning. */
  lemma {:induction false} SplitTrailing(a: Text)
    ensures Split(a + "/") == Split(a)
    ensures Split("/" + a) == Split(a)
  {
    SplitAround(a, []);
    assert a + "/" + [] == a + "/";
    assert ("/" + a)[1..] == a;
  }

  lemma {:induction false} SplitOne(c: Text)
    requires Component(c)
    ensures Split(c) == [c]
  {
    assert c[..|c|] == c;
    SplitStep(c, |c|);
    assert c[|c|..] == [];
  }

  /** Rendering is undone by splitting. */
  lemma {:induction false} SplitRender(cs: seq<Text>)
    requires AllComponents(cs)
    ensures Split(Render(cs)) == cs
    decreases |cs|
  {
    if cs == [] {
    } else if |cs| == 1 {
      SplitOne(cs[0]);
    } else {
      var k := |cs| - 1;
      SplitAround(Render(cs[..k]), cs[k]);
      SplitRender(cs[..k]);
      SplitOne(cs[k]);
      assert cs == cs[..k] + [cs[k]];
    }
  }

  lemma {:induction false} RenderAppend(cs: seq<Text>, c: Text)
    ensures Render(cs + [c]) == if cs == [] then c else Render(cs) + "/" + c
  {
    assert (cs + [c])[..|cs|] == cs;
  }

  lemma Regroup(x: Text, y: Text, z: Text)
    ensures (x + "/" + y) + "/" + z == x + "/" + (y + "/" + z)
  {
  }

  lemma {:induction false} RenderConcat(a: seq<Text>, b: seq<Text>)
    requires a != [] && b != []
    ensures Render(a + b) == Render(a) + "/" + Render(b)
    decreases |b|
  {
    var k := |b| - 1;
    var front, c := b[..k], b[k];
    assert a + b == (a + front) + [c] && b == front + [c];
    RenderAppend(a + front, c);
    RenderAppend(front, c);
    if k == 0 {
      assert a + front == a;
    } else {
      RenderConcat(a, front);
      Regroup(Render(a), Render(front), c);
    }
  }

  /** A rendering begins with the first character of its first component, so never with a
      separator, and is empty only for the empty stack. */
  lemma {:induction false} RenderHead(cs: seq<Text>)
    requires AllComponents(cs) && cs != []
    ensures Render(cs) != [] && Render(cs)[0] == cs[0][0] && Render(cs)[0] != '/'
    ensures |Render(cs)| >= if |cs| == 1 then |cs[0]| else |cs[0]| + 2
    decreases |cs|
  {
    assert Component(cs[0]) && Component(cs[|cs| - 1]);
    if |cs| > 1 { RenderHead(cs[..|cs| - 1]); }
  }

  // ----- the stack -----

  lemma {:induction false} StackAppend(cs: seq<Text>, c: Text)
    ensures Stack(cs + [c]) == Push(Stack(cs), c)
  {
    assert (cs + [c])[..|cs|] == cs;
  }

  lemma {:induction false} StackOrdinary(cs: seq<Text>)
    requires AllComponents(cs)
    ensures AllOrdinary(Stack(cs))
    decreases |cs|
  {
    if cs != [] { StackOrdinary(cs[..|cs| - 1]); }
  }

  /** Applying the stack again changes nothing: what has been normalised is normal. */
  lemma {:induction false} StackOfOrdinary(cs: seq<Text>)
    requires AllOrdinary(cs)
    ensures Stack(cs) == cs
    decreases |cs|
  {
    if cs != [] {
      StackOfOrdinary(cs[..|cs| - 1]);
      assert cs == cs[..|cs| - 1] + [cs[|cs| - 1]];
    }
  }

  /** A list that holds a `.` or a `..` is longer than the stack it leaves. */
  lemma {:induction false} StackShorter(cs: seq<Text>)
    requires AllComponents(cs)
    ensures |Stack(cs)| <= |cs|
    ensures |Stack(cs)| == |cs| ==> AllOrdinary(cs)
    decreases |cs|
  {
    if cs != [] {
      var k := |cs| - 1;
      StackShorter(cs[..k]);
      if |Stack(cs)| == |cs| {
        forall i | 0 <= i < |cs| ensures Ordinary(cs[i]) {
          if i < k { assert cs[..k][i] == cs[i]; }
        }
      }
    }
  }

  // ----- what stays -----

  /** One for a component that goes up, less one for one that goes down. */
  function Way(c: Text): int { if c == "." then 0 else if c == ".." then 1 else -1 }

  /** How many more times the stretch behind `i`, up to `j`, goes up than down. */
  function Rise(cs: seq<Text>, i: nat, j: nat): int
    requires j <= |cs|
  {
    if j <= i + 1 then 0 else Rise(cs, i, j - 1) + Way(cs[j - 1])
  }

  /** A component that goes down, and no stretch behind it goes up more often than down. */
  ghost predicate Stays(cs: seq<Text>, i: nat) {
    i < |cs| && Way(cs[i]) < 0 && forall j: nat :: i < j <= |cs| ==> Rise(cs, i, j) <= 0
  }

  lemma {:induction false} RiseSame(cs: seq<Text>, c: Text, i: nat, j: nat)
    requires j <= |cs|
    ensures Rise(cs + [c], i, j) == Rise(cs, i, j)
    decreases j
  {
    if i + 1 < j { RiseSame(cs, c, i, j - 1); }
  }

  /** One component more on a list. */
  lemma {:induction false} StaysOn(cs: seq<Text>, c: Text, i: nat)
    requires i < |cs|
    ensures Rise(cs + [c], i, |cs| + 1) == Rise(cs, i, |cs|) + Way(c)
    ensures Stays(cs + [c], i) <==> Stays(cs, i) && Rise(cs, i, |cs|) + Way(c) <= 0
  {
    var all := cs + [c];
    forall j: nat | j <= |cs| ensures Rise(all, i, j) == Rise(cs, i, j) { RiseSame(cs, c, i, j); }
    assert Rise(all, i, |cs| + 1) == Rise(cs, i, |cs|) + Way(c);
  }

  /** The last component stays exactly when it goes down. */
  lemma LastStays(cs: seq<Text>, c: Text)
    ensures Stays(cs + [c], |cs|) <==> Way(c) < 0
  {
  }

  /** Places of a list in their order, with a component that stays in each, and every component that stays. */
  ghost predicate Rising(ps: seq<nat>) { forall m, k :: 0 <= m < k < |ps| ==> ps[m] < ps[k] }

  ghost predicate AllStay(cs: seq<Text>, ps: seq<nat>) { forall m :: 0 <= m < |ps| ==> StayAt(cs, ps[m], |ps| - 1 - m) }

  ghost predicate AllIn(cs: seq<Text>, ps: seq<nat>) { forall i: nat :: Stays(cs, i) ==> i in ps }

  /** The component stays, and the list goes down behind it so many times more often than up. */
  ghost predicate StayAt(cs: seq<Text>, i: nat, behind: int) { Stays(cs, i) && Rise(cs, i, |cs|) == -behind }

  lemma StayAtOn(cs: seq<Text>, c: Text, i: nat, behind: int)
    requires StayAt(cs, i, behind)
    ensures StayAt(cs + [c], i, behind - Way(c)) <==> behind >= Way(c)
    ensures Stays(cs + [c], i) <==> behind >= Way(c)
  {
    StaysOn(cs, c, i);
  }

  /** A component that stays on a longer list stays on the shorter, or is the last. */
  lemma StaysBefore(cs: seq<Text>, c: Text, i: nat)
    requires Stays(cs + [c], i)
    ensures if i < |cs| then Stays(cs, i) else i == |cs| && Way(c) < 0
  {
    if i < |cs| { StaysOn(cs, c, i); }
  }

  lemma DownPlaces(cs: seq<Text>, ps: seq<nat>, c: Text)
    requires Rising(ps) && AllStay(cs, ps) && AllIn(cs, ps) && Way(c) < 0
    ensures Rising(ps + [|cs|]) && AllStay(cs + [c], ps + [|cs|]) && AllIn(cs + [c], ps + [|cs|])
  {
    var all, qs := cs + [c], ps + [|cs|];
    LastStays(cs, c);
    forall m | 0 <= m < |qs| ensures StayAt(all, qs[m], |qs| - 1 - m) {
      if m < |ps| { StayAtOn(cs, c, ps[m], |ps| - 1 - m); }
    }
    forall m | 0 <= m < |ps| ensures ps[m] < |cs| { assert StayAt(cs, ps[m], |ps| - 1 - m); }
    forall i: nat | Stays(all, i) ensures i in qs {
      StaysBefore(cs, c, i);
      assert qs[|ps|] == |cs|;
      if i in ps { assert i in qs; }
    }
  }

  lemma DotPlaces(cs: seq<Text>, ps: seq<nat>, c: Text)
    requires AllStay(cs, ps) && AllIn(cs, ps) && Way(c) == 0
    ensures AllStay(cs + [c], ps) && AllIn(cs + [c], ps)
  {
    forall m | 0 <= m < |ps| ensures StayAt(cs + [c], ps[m], |ps| - 1 - m) { StayAtOn(cs, c, ps[m], |ps| - 1 - m); }
    forall i: nat | Stays(cs + [c], i) ensures i in ps { StaysBefore(cs, c, i); }
  }

  lemma UpPlaces(cs: seq<Text>, ps: seq<nat>, c: Text)
    requires Rising(ps) && AllStay(cs, ps) && AllIn(cs, ps) && Way(c) == 1
    ensures var qs := if ps == [] then [] else ps[..|ps| - 1];
      Rising(qs) && AllStay(cs + [c], qs) && AllIn(cs + [c], qs)
  {
    var all, qs := cs + [c], if ps == [] then [] else ps[..|ps| - 1];
    forall m | 0 <= m < |qs| ensures StayAt(all, qs[m], |qs| - 1 - m) { StayAtOn(cs, c, ps[m], |ps| - 1 - m); }
    forall i: nat | Stays(all, i) ensures i in qs {
      StaysBefore(cs, c, i);
      var m :| 0 <= m < |ps| && ps[m] == i;
      StayAtOn(cs, c, ps[m], |ps| - 1 - m);
      assert m < |qs| && qs[m] == i;
    }
  }

  /** What is left is what stays, in the order in which it stood: every component that goes down, unless some
      stretch behind it goes up more often than it goes down again. */
  lemma {:induction false} StackStays(cs: seq<Text>) returns (ps: seq<nat>)
    ensures |ps| == |Stack(cs)| && forall m, k :: 0 <= m < k < |ps| ==> ps[m] < ps[k]
    ensures forall i: nat :: i in ps <==> Stays(cs, i)
    ensures forall m :: 0 <= m < |ps| ==> ps[m] < |cs| && Stack(cs)[m] == cs[ps[m]]
  {
    ps := PlacesOf(cs);
    forall m | 0 <= m < |ps| ensures Stays(cs, ps[m]) { assert StayAt(cs, ps[m], |ps| - 1 - m); }
  }

  lemma {:induction false} PlacesOf(cs: seq<Text>) returns (ps: seq<nat>)
    ensures Rising(ps) && AllStay(cs, ps) && AllIn(cs, ps) && StackAt(cs, ps)
    decreases |cs|
  {
    if cs == [] {
      ps := [];
    } else {
      var k := |cs| - 1;
      ps := PlacesOf(cs[..k]);
      ps := PlacesOn(cs[..k], ps, cs[k]);
      assert cs[..k] + [cs[k]] == cs;
    }
  }

  /** The stack holds what the list does in these places. */
  ghost predicate StackAt(cs: seq<Text>, ps: seq<nat>) {
    |ps| == |Stack(cs)| && forall m :: 0 <= m < |ps| ==> ps[m] < |cs| && Stack(cs)[m] == cs[ps[m]]
  }

  lemma {:induction false} PlacesOn(cs: seq<Text>, ps: seq<nat>, c: Text) returns (qs: seq<nat>)
    requires Rising(ps) && AllStay(cs, ps) && AllIn(cs, ps) && StackAt(cs, ps)
    ensures Rising(qs) && AllStay(cs + [c], qs) && AllIn(cs + [c], qs) && StackAt(cs + [c], qs)
  {
    StackAppend(cs, c);
    if Way(c) < 0 {
      DownPlaces(cs, ps, c);
      qs := ps + [|cs|];
    } else if Way(c) == 0 {
      DotPlaces(cs, ps, c);
      qs := ps;
    } else {
      UpPlaces(cs, ps, c);
      qs := if ps == [] then [] else ps[..|ps| - 1];
    }
  }

  /** A component and the way up cancel; a dot does nothing, nor does the way up from the root. */
  lemma {:induction false} StackCancels(cs: seq<Text>, c: Text)
    requires Ordinary(c)
    ensures Stack(cs + [c]) == Stack(cs) + [c] && Stack(cs + [c] + [".."]) == Stack(cs)
    ensures Stack(cs + ["."]) == Stack(cs) && Stack([".."] + cs) == Stack(cs)
  {
    StackAppend(cs, c);
    StackAppend(cs + [c], "..");
    StackAppend(cs, ".");
    UpFromTheRoot(cs);
  }

  lemma {:induction false} UpFromTheRoot(cs: seq<Text>)
    ensures Stack([".."] + cs) == Stack(cs)
    decreases |cs|
  {
    if cs == [] {
      assert [".."] + cs == [] + [".."];
      StackAppend([], "..");
    } else {
      var k := |cs| - 1;
      UpFromTheRoot(cs[..k]);
      assert cs == cs[..k] + [cs[k]] && [".."] + cs == ([".."] + cs[..k]) + [cs[k]];
      StackAppend([".."] + cs[..k], cs[k]);
    }
  }

  /** A rendering has no separator but between its components. */
  lemma {:induction false} RenderTight(cs: seq<Text>)
    requires AllComponents(cs)
    ensures forall i :: 0 <= i < |Render(cs)| && Render(cs)[i] == '/' ==>
              0 < i < |Render(cs)| - 1 && Render(cs)[i + 1] != '/'
    decreases |cs|
  {
    if cs != [] {
      var k := |cs| - 1;
      RenderTight(cs[..k]);
      var c, r := cs[k], Render(cs);
      assert Component(c);
      if k > 0 {
        var h := Render(cs[..k]);
        RenderHead(cs[..k]);
        assert r == h + "/" + c;
        assert h[|h| - 1] != '/';
        assert forall i :: 0 <= i < |c| ==> r[|h| + 1 + i] == c[i];
      }
    }
  }

  // ----- no terminator inside a text -----

  ghost predicate NoNul(s: Text) { '\0' !in s }

  lemma {:induction false} SplitNoNul(s: Text)
    requires NoNul(s)
    ensures forall i :: 0 <= i < |Split(s)| ==> NoNul(Split(s)[i])
    decreases |s|
  {
    if s == [] {
    } else if s[0] == '/' {
      SplitNoNul(s[1..]);
    } else {
      SplitNoNul(s[Run(s)..]);
    }
  }

  lemma {:induction false} StackSubset(cs: seq<Text>)
    ensures forall c :: c in Stack(cs) ==> c in cs
    decreases |cs|
  {
    if cs != [] {
      var k := |cs| - 1;
      StackSubset(cs[..k]);
      forall c | c in Stack(cs) ensures c in cs { PushedFrom(Stack(cs[..k]), cs[k], c); }
    }
  }

  lemma PushedFrom(stack: seq<Text>, x: Text, c: Text)
    requires c in Push(stack, x)
    ensures c in stack || c == x
  {
  }

  lemma {:induction false} RenderNoNul(cs: seq<Text>)
    requires forall c :: c in cs ==> NoNul(c)
    ensures NoNul(Render(cs))
    decreases |cs|
  {
    if cs != [] {
      RenderNoNul(cs[..|cs| - 1]);
      assert cs[|cs| - 1] in cs;
    }
  }

  lemma {:induction false} NormalNoNul(s: Text)
    requires NoNul(s)
    ensures NoNul(Render(Stack(Split(s))))
  {
    SplitNoNul(s);
    StackSubset(Split(s));
    RenderNoNul(Stack(Split(s)));
  }
}
