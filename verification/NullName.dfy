/**
  The null device's name: the full resolution (`null_name_resolved`), and the look at the last
  component that spares most names of it (`okm_null_name`).
*/
module NullName {
  import opened Options
  import opened Components
  import opened Names
  import opened Resolver

  const DEV_NULL: Text := "/dev/null"

  /** What `okm_absolute` answers; an error is no name. */
  ghost function FullName(start: Start, path: Text): Option<Text> {
    if RootLength(path) > 0 then Joined([], path, MAX_PATH)
    else if start.Cwd? || start.Directory? then Joined(start.name, path, MAX_PATH)
    else None
  }

  /** Resolved lexically, the path names the null device. */
  ghost predicate IsNull(start: Start, path: Text) {
    path != [] && FullName(start, path) == Some(DEV_NULL)
  }

  /** Two terminated texts are equal when the second is found where the first is held. */
  lemma HeldName(abs: array<char>, s: Text, name: Text)
    requires NoNul(s) && NoNul(name) && Holds(abs, 0, s) && abs.Length > |name|
    ensures s == name <==> abs[|name|] == '\0' && forall i :: 0 <= i < |name| ==> abs[i] == name[i]
  {
    forall j | 0 <= j < |s| ensures abs[j] == s[j] && abs[j] != '\0' { assert abs[0 + j] == s[j]; }
    assert abs[|s|] == '\0' by { assert abs[0 + |s|] == '\0'; }
    if abs[|name|] == '\0' && forall i :: 0 <= i < |name| ==> abs[i] == name[i] {
      assert forall j :: 0 <= j < |name| ==> abs[j] != '\0';
      assert |s| == |name|;
    }
  }

  /** The loop of the comparison, terminator and all. */
  method Equals(abs: array<char>, name: Text) returns (b: bool)
    requires abs.Length > |name|
    ensures b <==> abs[|name|] == '\0' && forall i :: 0 <= i < |name| ==> abs[i] == name[i]
  {
    for i := 0 to |name| + 1
      invariant forall j :: 0 <= j < i && j < |name| ==> abs[j] == name[j]
      invariant i > |name| ==> abs[|name|] == '\0'
    {
      if abs[i] != (if i < |name| then name[i] else '\0') { return false; }
    }
    return true;
  }

  method NullNameResolved(start: Start, path: Text) returns (b: bool)
    requires GoodStart(start) && NoNul(path)
    ensures b <==> IsNull(start, path)
  {
    if path == [] { return false; }
    var abs := new char[MAX_PATH];
    var e, prefix := 0, [];
    if RootLength(path) != 0 {
      e := Join([], path, abs, MAX_PATH);
    } else if start.Cwd? || start.Directory? {
      prefix := start.name;
      e := Join(prefix, path, abs, MAX_PATH);
    } else {
      return false;
    }
    if e != 0 { return false; }
    JoinedNoNul(prefix, path, MAX_PATH);
    HeldName(abs, FullName(start, path).value, DEV_NULL);
    b := Equals(abs, DEV_NULL);
  }

  // ----- the last component -----

  /** The last component of a path, as it lies in it: before it a separator or nothing, behind
      it separators only. */
  lemma {:induction false} LastComponent(s: Text) returns (b: nat, e: nat)
    requires Split(s) != []
    ensures b < e <= |s| && s[b..e] == Split(s)[|Split(s)| - 1]
    ensures forall i :: e <= i < |s| ==> s[i] == '/'
    ensures b == 0 || s[b - 1] == '/'
    decreases |s|
  {
    var n := if s[0] == '/' then 1 else Run(s);
    RunEnds(s);
    var t := s[n..];
    SplitFirst(s, n);
    if Split(t) == [] {
      b, e := 0, n;
      OnlySeparators(t);
      assert forall i :: e <= i < |s| ==> s[i] == t[i - n];
    } else {
      var b', e' := LastComponent(t);
      b, e := b' + n, e' + n;
      Behind(s, n, b', e');
      if s[0] != '/' { NotAtFirst(t, b', e'); }
    }
  }

  /** The first component, or a separator, and what is behind it. */
  lemma {:induction false} SplitFirst(s: Text, n: nat)
    requires s != [] && n == if s[0] == '/' then 1 else Run(s)
    ensures 0 < n <= |s|
    ensures Split(s) == if s[0] == '/' then Split(s[n..]) else [s[..n]] + Split(s[n..])
    ensures s[0] != '/' && n < |s| ==> s[n] == '/'
  {
    RunEnds(s);
  }

  /** A component does not begin at a separator. */
  lemma {:induction false} NotAtFirst(t: Text, b: nat, e: nat)
    requires Split(t) != [] && t[0] == '/' && b < e <= |t| && t[b..e] == Split(t)[|Split(t)| - 1]
    ensures b > 0
  {
    SplitComponents(t);
    assert Component(t[b..e]) && t[b] == t[b..e][0];
  }

  /** What lies in the rest of a text lies in the text, further along. */
  lemma Behind(s: Text, n: nat, b: nat, e: nat)
    requires n <= |s| && b < e <= |s[n..]|
    ensures s[b + n..e + n] == s[n..][b..e]
    ensures b > 0 ==> s[b + n - 1] == s[n..][b - 1]
    ensures forall i :: e + n <= i < |s| ==> s[i] == s[n..][i - n]
  {
  }

  lemma {:induction false} OnlySeparators(s: Text)
    requires Split(s) == []
    ensures forall i :: 0 <= i < |s| ==> s[i] == '/'
    decreases |s|
  {
    if s != [] {
      OnlySeparators(s[1..]);
      assert forall i :: 1 <= i < |s| ==> s[i] == s[1..][i - 1];
    }
  }

  /** The word is this one, or dots. */
  predicate IsOrDots(word: Text, one: Text) { word == one || word == "." || word == ".." }

  /** A list of components that leaves a stack of two ends in the second, or in dots that
      uncover it. */
  lemma {:induction false} LastOfTwo(cs: seq<Text>, first: Text, second: Text)
    requires AllComponents(cs) && cs != [] && Component(first) && Component(second)
    requires Render(Stack(cs)) == first + "/" + second
    ensures IsOrDots(cs[|cs| - 1], second)
  {
    StackOrdinary(cs);
    SplitRender(Stack(cs));
    SplitAround(first, second);
    SplitOne(first);
    SplitOne(second);
    assert Stack(cs) == [first] + [second];
  }

  /** A name that joining makes begin with a separator had it for a root. */
  lemma SlashIsRooted(prefix: Text, rel: Text, text: Text)
    requires Joined(prefix, rel, MAX_PATH) == Some("/" + text)
    ensures RootLength(Rooted(prefix, rel)) == 1
    ensures |rel| < MAX_PATH
    ensures Render(Stack(Meant(prefix, rel))) == text
  {
    var from := Rooted(prefix, rel);
    var st := Stack(BodyComponents(prefix, rel));
    SplitComponents(Body(prefix, rel));
    SplitComponents(Slashed(Body(prefix, rel)));
    StackOrdinary(BodyComponents(prefix, rel));
    if st != [] { RenderHead(st); }
    var root := Slashed(from[..RootLength(from)]);
    var name := root + Render(st);
    assert name[0] == '/';
    assert root == [] ==> name == Render(st);
    assert root != [] ==> name[0] == root[0] == Slash(from[0]);
    assert RootLength(from) == 1;
    JoinedMeaning(prefix, rel, MAX_PATH);
    assert name[1..] == Render(st) && name[1..] == text;
  }

  /** The word a name ends in, by either separator: no separator in it, one before it or nothing,
      and only separators behind it. */
  ghost predicate LastWord(path: Text, last: nat, end: nat) {
    && last <= end <= |path|
    && (forall i :: end <= i < |path| ==> Separator(path[i]))
    && (forall i :: last <= i < end ==> !Separator(path[i]))
    && (last > 0 ==> Separator(path[last - 1]))
    && (last == end ==> end == 0)
  }

  predicate MayBeNull(word: Text) { word == [] || IsOrDots(word, "null") }

  /** The last word is the last component where that holds no backslash, even though a backslash
      is a separator to the one and a character to the other. */
  lemma {:induction false} WordIsComponent(path: Text, last: nat, end: nat)
    requires LastWord(path, last, end) && Split(path) != []
    requires '\\' !in Split(path)[|Split(path)| - 1]
    ensures path[last..end] == Split(path)[|Split(path)| - 1]
  {
    var c := Split(path)[|Split(path)| - 1];
    var b, e := LastComponent(path);
    SplitComponents(path);
    assert forall i :: b <= i < e ==> path[i] == c[i - b] && !Separator(path[i]);
    assert e <= end by { assert !Separator(path[e - 1]); }
    assert end <= e by { assert !Separator(path[end - 1]); }
    assert last == b;
  }

  lemma {:induction false} MeantLast(prefix: Text, path: Text)
    requires Split(path) != []
    ensures var all := Meant(prefix, path);
            all != [] && AllComponents(all) && all[|all| - 1] == Split(path)[|Split(path)| - 1]
  {
    SplitComponents(prefix);
    SplitComponents(path);
  }

  /** Whatever a name is resolved against, the word it ends in is the last component of what it
      resolves to, or dots. */
  lemma WordDecides(prefix: Text, path: Text, last: nat, end: nat, first: Text, second: Text)
    requires Render(Stack(Meant(prefix, path))) == first + "/" + second
    requires Component(first) && Component(second) && '\\' !in second
    requires LastWord(path, last, end) && last < end
    ensures IsOrDots(path[last..end], second)
  {
    assert !Separator(path[last]);
    if Split(path) == [] { OnlySeparators(path); }
    MeantLast(prefix, path);
    LastOfTwo(Meant(prefix, path), first, second);
    WordIsComponent(path, last, end);
  }

  lemma DevNull()
    ensures DEV_NULL == "/" + ("dev" + "/" + "null")
  {
  }

  /** What a name that comes to the null device's is resolved against. */
  ghost function Before(start: Start, path: Text): Text {
    if RootLength(path) == 0 && (start.Cwd? || start.Directory?) then start.name else []
  }

  lemma NullIsShort(start: Start, path: Text)
    ensures IsNull(start, path) ==> |path| < MAX_PATH
    ensures IsNull(start, path) ==> Render(Stack(Meant(Before(start, path), path))) == "dev" + "/" + "null"
  {
    DevNull();
    if IsNull(start, path) { SlashIsRooted(Before(start, path), path, "dev" + "/" + "null"); }
  }

  lemma NullHasWord(start: Start, path: Text, last: nat, end: nat)
    requires LastWord(path, last, end)
    ensures IsNull(start, path) ==> MayBeNull(path[last..end])
  {
    NullIsShort(start, path);
    if IsNull(start, path) { NullWord(Before(start, path), path, last, end); }
  }

  lemma NullWord(prefix: Text, path: Text, last: nat, end: nat)
    requires Render(Stack(Meant(prefix, path))) == "dev" + "/" + "null" && LastWord(path, last, end)
    ensures MayBeNull(path[last..end])
  {
    if last < end { WordDecides(prefix, path, last, end, "dev", "null"); } else { assert path[last..end] == []; }
  }

  lemma {:induction false} DevAndNull(st: seq<Text>)
    requires AllOrdinary(st)
    ensures Render(st) == "dev" + "/" + "null" <==> st == ["dev", "null"]
  {
    RenderAppend(["dev"], "null");
    assert ["dev"] + ["null"] == ["dev", "null"] && Render(["dev"]) == "dev";
    SplitRender(st);
    if Render(st) == "dev" + "/" + "null" {
      SplitAround("dev", "null");
      SplitOne("dev");
      SplitOne("null");
    }
  }

  lemma JoinedIsNull(prefix: Text, path: Text)
    ensures Joined(prefix, path, MAX_PATH) == Some(DEV_NULL) <==>
            && Joined(prefix, path, MAX_PATH).Some? && RootLength(Rooted(prefix, path)) == 1
            && Stack(Meant(prefix, path)) == ["dev", "null"]
  {
    DevNull();
    if Joined(prefix, path, MAX_PATH) == Some(DEV_NULL) {
      SlashIsRooted(prefix, path, "dev" + "/" + "null");
      SplitComponents(prefix);
      SplitComponents(path);
      StackOrdinary(Meant(prefix, path));
      DevAndNull(Stack(Meant(prefix, path)));
    } else if RootLength(Rooted(prefix, path)) == 1 && Joined(prefix, path, MAX_PATH).Some? {
      JoinedMeaning(prefix, path, MAX_PATH);
      DevAndNull(Stack(Meant(prefix, path)));
    }
  }

  /** The name is the null device's exactly when the path, resolved as any other, leads to the component `null` of
      `dev` beneath the separator, and is not too long for that. */
  lemma NullMeans(start: Start, path: Text)
    ensures IsNull(start, path) <==>
            && path != [] && FromSlash(start, path) && Wanted(start, path) == ["dev", "null"]
            && FullName(start, path).Some?
    ensures FromSlash(start, path) && |Before(start, path)| + |path| + 6 <= MAX_PATH ==> FullName(start, path).Some?
  {
    var prefix := Before(start, path);
    JoinedIsNull(prefix, path);
    if RootLength(path) > 0 || start.Cwd? || start.Directory? {
      assert FullName(start, path) == Joined(prefix, path, MAX_PATH);
      assert RootLength(Rooted(prefix, path)) == 1 <==> FromSlash(start, path);
      if |prefix| + |path| + 6 <= MAX_PATH { ShortNamesJoin(prefix, path, MAX_PATH); }
    }
  }

  method FindLastWord(path: Text) returns (last: nat, end: nat)
    ensures LastWord(path, last, end)
  {
    end := |path|;
    while end > 0 && Separator(path[end - 1])
      invariant 0 <= end <= |path|
      invariant forall i :: end <= i < |path| ==> Separator(path[i])
    {
      end := end - 1;
    }
    last := end;
    while last > 0 && !Separator(path[last - 1])
      invariant 0 <= last <= end
      invariant forall i :: last <= i < end ==> !Separator(path[i])
    {
      last := last - 1;
    }
  }

  /** The quick test and the full resolution answer alike, for every path and whatever it is
      resolved against. */
  method NullNameTest(start: Start, path: Text) returns (b: bool)
    requires GoodStart(start) && NoNul(path)
    ensures b <==> IsNull(start, path)
  {
    if path == [] { return false; }
    var length := 0;
    while length < MAX_PATH && length < |path|
      invariant 0 <= length <= |path| && length <= MAX_PATH
    {
      length := length + 1;
    }
    NullIsShort(start, path);
    if length == MAX_PATH { return false; }
    var last, end := FindLastWord(path);
    NullHasWord(start, path, last, end);
    if !MayBeNull(path[last..end]) { return false; }
    b := NullNameResolved(start, path);
  }
}
