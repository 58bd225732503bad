/**
  `__posix_spawnp`: a name without a separator looked for in the entries of a search path, one attempt to
  start a program for each, and what the answers add up to.
*/
module PathSearch {
  import opened Options
  import Components

  type Text = seq<char>

  const ENOENT: nat := 2
  const EACCES: nat := 13
  const ENOTDIR: nat := 20
  const ENAMETOOLONG: nat := 36
  const NAME_MAX: nat := 255
  const MAX_PATH: nat := 4096
  const DEFAULT_PATH: Text := "/usr/local/bin:/bin:/usr/bin"

  // --- the entries ---

  /** Where the entry that begins at a place ends: at the next colon, or with the path. */
  function EndOf(path: Text, p: nat): (z: nat)
    requires p <= |path|
    ensures p <= z <= |path| && (z < |path| ==> path[z] == ':')
    ensures forall i :: p <= i < z ==> path[i] != ':'
    decreases |path| - p
  {
    if p == |path| || path[p] == ':' then p else EndOf(path, p + 1)
  }

  /** The entries of a path from a place on, between its colons; there is always one. */
  function Entries(path: Text, p: nat): (es: seq<Text>)
    requires p <= |path|
    ensures es != []
    decreases |path| - p
  {
    var z := EndOf(path, p);
    if z == |path| then [path[p..z]] else [path[p..z]] + Entries(path, z + 1)
  }

  /** The text of entries with colons between them. */
  function Joined(es: seq<Text>): Text
    requires es != []
    decreases |es|
  {
    if |es| == 1 then es[0] else es[0] + ":" + Joined(es[1..])
  }

  lemma {:induction false} JoinedCons(e: Text, rest: seq<Text>)
    requires rest != []
    ensures Joined([e] + rest) == e + ":" + Joined(rest)
  {
    assert ([e] + rest)[1..] == rest;
  }

  lemma CutAt(path: Text, p: nat, z: nat)
    requires p <= z < |path| && path[z] == ':'
    ensures path[p..] == path[p..z] + ":" + path[z + 1..]
  {
  }

  /** None of the texts holds a colon. */
  predicate Uncut(es: seq<Text>) { forall i :: 0 <= i < |es| ==> ':' !in es[i] }

  lemma UncutMore(e: Text, rest: seq<Text>)
    requires ':' !in e && Uncut(rest)
    ensures Uncut([e] + rest)
  {
  }

  /** The entries are the path, cut at every colon and nowhere else. */
  lemma {:induction false} EntriesAreThePath(path: Text, p: nat)
    requires p <= |path|
    ensures Joined(Entries(path, p)) == path[p..] && Uncut(Entries(path, p))
    decreases |path| - p
  {
    var z := EndOf(path, p);
    if z == |path| {
      assert path[p..z] == path[p..];
    } else {
      EntriesAreThePath(path, z + 1);
      OneMoreEntry(path, p, z, Entries(path, z + 1));
    }
  }

  lemma {:induction false} OneMoreEntry(path: Text, p: nat, z: nat, rest: seq<Text>)
    requires p <= z < |path| && path[z] == ':' && ':' !in path[p..z] && rest != []
    requires Joined(rest) == path[z + 1..] && Uncut(rest)
    ensures Joined([path[p..z]] + rest) == path[p..] && Uncut([path[p..z]] + rest)
  {
    JoinedCons(path[p..z], rest);
    CutAt(path, p, z);
    UncutMore(path[p..z], rest);
  }

  /** The name tried for an entry; an empty entry is the working directory. */
  function Candidate(entry: Text, file: Text): Text {
    if entry == [] then file else entry + "/" + file
  }

  /** It leads to the file in what the entry names. */
  lemma {:induction false} CandidateIsIn(entry: Text, file: Text)
    requires Components.Component(file)
    ensures Components.Split(Candidate(entry, file)) == Components.Split(entry) + [file]
    ensures entry != [] ==> Candidate(entry, file)[0] == entry[0]
  {
    Components.SplitOne(file);
    if entry != [] { Components.SplitAround(entry, file); }
  }

  /** It goes into the buffer with its terminator. */
  predicate Fits(entry: Text, file: Text) { |Candidate(entry, file)| + 1 <= MAX_PATH }

  /** The names tried, in order: those of the entries that fit. */
  function Candidates(es: seq<Text>, file: Text): seq<Text> {
    if es == [] then []
    else One(es[0], file) + Candidates(es[1..], file)
  }

  /** The name an entry is tried by, if it is. */
  function One(entry: Text, file: Text): seq<Text> {
    if Fits(entry, file) then [Candidate(entry, file)] else []
  }

  // --- what the answers add up to ---

  /** An answer that is no evidence about the next entry's. */
  predicate GoesOn(e: nat) { e == EACCES || e == ENOENT || e == ENOTDIR }

  /** What a search answers, and the names it tried. */
  datatype Verdict = Verdict(r: nat, tried: seq<Text>)

  /** What the attempts to start a program answer, each by its number. */
  type Replies = nat -> nat

  /** The search from an entry on, after `k` attempts, of which one was refused permission if `seen`. */
  function Sought(path: Text, p: nat, file: Text, reply: Replies, k: nat, seen: bool): Verdict
    requires p <= |path|
    decreases |path| - p
  {
    var z := EndOf(path, p);
    if !Fits(path[p..z], file) then SoughtBehind(path, z, file, reply, k, seen)
    else if !GoesOn(reply(k)) then Verdict(reply(k), [Candidate(path[p..z], file)])
    else After([Candidate(path[p..z], file)], SoughtBehind(path, z, file, reply, k + 1, seen || reply(k) == EACCES))
  }

  function SoughtBehind(path: Text, z: nat, file: Text, reply: Replies, k: nat, seen: bool): Verdict
    requires z <= |path|
    decreases |path| - z, 0
  {
    if z == |path| then Verdict(if seen then EACCES else ENOENT, []) else Sought(path, z + 1, file, reply, k, seen)
  }

  function After(names: seq<Text>, v: Verdict): Verdict { v.(tried := names + v.tried) }

  /** The verdict on these names, the first of which is attempt number `k`: they are tried in order; the
      first answer that ends a search ends it there; without one, every name is tried, and a refusal of
      permission is told. */
  ghost predicate Concludes(names: seq<Text>, reply: Replies, k: nat, seen: bool, v: Verdict) {
    var n := |v.tried|;
    && v.tried <= names
    && (forall i :: k <= i < k + n - 1 ==> GoesOn(reply(i)))
    && if n > 0 && !GoesOn(reply(k + n - 1)) then v.r == reply(k + n - 1)
       else v.tried == names && v.r == if seen || Denied(reply, k, k + n) then EACCES else ENOENT
  }

  ghost predicate Denied(reply: Replies, lo: nat, hi: nat) {
    exists i: nat :: lo <= i < hi && reply(i) == EACCES
  }

  /** A name more, whose answer does not end the search. */
  lemma GoesOnFrom(name: Text, rest: seq<Text>, reply: Replies, k: nat, seen: bool, v: Verdict)
    requires GoesOn(reply(k)) && Concludes(rest, reply, k + 1, seen || reply(k) == EACCES, v)
    ensures Concludes([name] + rest, reply, k, seen, After([name], v))
  {
    var n := |v.tried|;
    assert Denied(reply, k, k + 1 + n) <==> reply(k) == EACCES || Denied(reply, k + 1, k + 1 + n);
  }

  /** The names still to be tried at a place where an entry begins, and behind one that ends. */
  function From(path: Text, p: nat, file: Text): seq<Text>
    requires p <= |path|
  {
    Candidates(Entries(path, p), file)
  }

  function Behind(path: Text, z: nat, file: Text): seq<Text>
    requires z <= |path|
  {
    if z == |path| then [] else From(path, z + 1, file)
  }

  lemma {:induction false} FromStep(path: Text, p: nat, file: Text)
    requires p <= |path|
    ensures var z := EndOf(path, p); From(path, p, file) == One(path[p..z], file) + Behind(path, z, file)
  {
    var es := Entries(path, p);
    var z := EndOf(path, p);
    if z == |path| {
      assert es[1..] == [];
      assert Candidates(es, file) == One(es[0], file) + [];
    } else {
      assert es[1..] == Entries(path, z + 1);
    }
  }

  /** The search comes to the right verdict on the names its path has. */
  lemma {:induction false} SearchConcludes(path: Text, p: nat, file: Text, reply: Replies, k: nat, seen: bool)
    requires p <= |path|
    ensures Concludes(From(path, p, file), reply, k, seen, Sought(path, p, file, reply, k, seen))
    decreases |path| - p
  {
    var z := EndOf(path, p);
    var name, rest := Candidate(path[p..z], file), Behind(path, z, file);
    FromStep(path, p, file);
    if !Fits(path[p..z], file) {
      BehindConcludes(path, z, file, reply, k, seen);
      assert [] + rest == rest;
    } else if GoesOn(reply(k)) {
      BehindConcludes(path, z, file, reply, k + 1, seen || reply(k) == EACCES);
      GoesOnFrom(name, rest, reply, k, seen, SoughtBehind(path, z, file, reply, k + 1, seen || reply(k) == EACCES));
    } else {
      assert [name] <= [name] + rest;
    }
  }

  lemma {:induction false} BehindConcludes(path: Text, z: nat, file: Text, reply: Replies, k: nat, seen: bool)
    requires z <= |path|
    ensures Concludes(Behind(path, z, file), reply, k, seen, SoughtBehind(path, z, file, reply, k, seen))
    decreases |path| - z, 0
  {
    if z < |path| {
      var v := Sought(path, z + 1, file, reply, k, seen);
      SearchConcludes(path, z + 1, file, reply, k, seen);
      BehindIs(path, z, file, reply, k, seen);
      SameConcludes(From(path, z + 1, file), Behind(path, z, file), reply, k, seen, v,
                    SoughtBehind(path, z, file, reply, k, seen));
    } else {
      EndConcludes(reply, k, seen);
    }
  }

  lemma SameConcludes(a: seq<Text>, b: seq<Text>, reply: Replies, k: nat, seen: bool, v: Verdict, w: Verdict)
    requires a == b && v == w && Concludes(a, reply, k, seen, v)
    ensures Concludes(b, reply, k, seen, w)
  {
  }

  lemma {:induction false} BehindIs(path: Text, z: nat, file: Text, reply: Replies, k: nat, seen: bool)
    requires z < |path|
    ensures Behind(path, z, file) == From(path, z + 1, file)
    ensures SoughtBehind(path, z, file, reply, k, seen) == Sought(path, z + 1, file, reply, k, seen)
  {
  }

  lemma EndConcludes(reply: Replies, k: nat, seen: bool)
    ensures Concludes([], reply, k, seen, Verdict(if seen then EACCES else ENOENT, []))
  {
    assert !Denied(reply, k, k);
  }

  /** A program is started at most once, and exactly when the search succeeds; then it is the last tried. */
  lemma StartedOnce(names: seq<Text>, reply: Replies, v: Verdict)
    requires Concludes(names, reply, 0, false, v)
    ensures forall i :: 0 <= i < |v.tried| && reply(i) == 0 ==> i == |v.tried| - 1 && v.r == 0
    ensures v.r == 0 ==> v.tried != [] && reply(|v.tried| - 1) == 0
  {
  }

  /** A name that is not there, or is beneath what is no directory. */
  predicate Lacking(e: nat) { e == ENOENT || e == ENOTDIR }

  /** None found and none denied: there is no such file. One denied, and none that told more: that. Otherwise the
      first answer that told more, and every name before it was lacking or denied. */
  lemma WhatIsAnswered(names: seq<Text>, reply: Replies, v: Verdict)
    requires Concludes(names, reply, 0, false, v)
    ensures v.r == ENOENT <==> v.tried == names && forall i :: 0 <= i < |names| ==> Lacking(reply(i))
    ensures v.r == EACCES <==>
      && v.tried == names && (forall i :: 0 <= i < |names| ==> Lacking(reply(i)) || reply(i) == EACCES)
      && exists i :: 0 <= i < |names| && reply(i) == EACCES
    ensures v.r != ENOENT && v.r != EACCES ==>
      && v.r != ENOTDIR && 0 < |v.tried| <= |names| && v.tried == names[..|v.tried|] && reply(|v.tried| - 1) == v.r
      && forall i :: 0 <= i < |v.tried| - 1 ==> Lacking(reply(i)) || reply(i) == EACCES
  {
    var n := |v.tried|;
    assert Denied(reply, 0, n) <==> exists i :: 0 <= i < n && reply(i) == EACCES;
    if n > 0 && !GoesOn(reply(n - 1)) {
      assert v.tried == names[..n];
      assert !Lacking(reply(n - 1));
    }
  }

  /** Puts an entry, a separator where there is one, and the name with its terminator into the buffer. */
  method Compose(cand: array<char>, path: Text, p: nat, n: nat, file: Text) returns (text: Text)
    requires p + n <= |path| && cand.Length == MAX_PATH && n + (if n != 0 then 1 else 0) + |file| + 1 <= MAX_PATH
    modifies cand
    ensures text == Candidate(path[p..p + n], file)
  {
    var o := 0;
    for i := 0 to n
      invariant o == i && forall j :: 0 <= j < i ==> cand[j] == path[p + j]
    {
      cand[o] := path[p + i];
      o := o + 1;
    }
    if o != 0 {
      cand[o] := '/';
      o := o + 1;
    }
    ghost var head := path[p..p + n] + if n != 0 then "/" else [];
    assert cand[..o] == head;
    for i := 0 to |file|
      invariant cand[..o] == head && forall j :: 0 <= j < i ==> cand[o + j] == file[j]
    {
      cand[o + i] := file[i];
    }
    cand[o + |file|] := '\0';
    text := cand[..o + |file|];
    assert text == head + file;
  }

  /** The end of the entry that begins at a place. */
  method EntryEnd(path: Text, p: nat) returns (z: nat)
    requires p <= |path|
    ensures z == EndOf(path, p)
  {
    z := p;
    while z < |path| && path[z] != ':'
      invariant p <= z <= |path| && EndOf(path, z) == EndOf(path, p)
    {
      z := z + 1;
    }
  }

  lemma Regroup(a: seq<Text>, t: Text, v: Verdict)
    ensures After(a, After([t], v)) == After(a + [t], v)
  {
    assert a + ([t] + v.tried) == (a + [t]) + v.tried;
  }

  /** Marks the number of an attempt, so that a search is unfolded only where a proof names one. */
  predicate Attempt(k: nat) { true }

  /** The search has come to an entry, or behind one. */
  ghost predicate SoFar(path: Text, p: nat, file: Text, reply: Replies, seen: bool, tried: seq<Text>, whole: Verdict)
    requires p <= |path|
  {
    forall k: nat {:trigger Attempt(k)} :: Attempt(k) && k == |tried| ==>
      After(tried, Sought(path, p, file, reply, k, seen)) == whole
  }

  ghost predicate SoFarBehind(path: Text, z: nat, file: Text, reply: Replies, seen: bool, tried: seq<Text>,
                              whole: Verdict)
    requires z <= |path|
  {
    forall k: nat {:trigger Attempt(k)} :: Attempt(k) && k == |tried| ==>
      After(tried, SoughtBehind(path, z, file, reply, k, seen)) == whole
  }

  /** One that does not fit leaves what has been tried as it was. */
  lemma {:induction false} Passes(path: Text, p: nat, file: Text, reply: Replies, seen: bool, tried: seq<Text>,
                                  whole: Verdict)
    requires p <= |path| && SoFar(path, p, file, reply, seen, tried, whole) && !Fits(path[p..EndOf(path, p)], file)
    ensures SoFarBehind(path, EndOf(path, p), file, reply, seen, tried, whole)
  {
    assert Attempt(|tried|);
  }

  /** One that can be is tried, and the search ends there or goes on. */
  lemma {:induction false} Tries(path: Text, p: nat, file: Text, reply: Replies, seen: bool, tried: seq<Text>,
                                 whole: Verdict)
    requires p <= |path| && SoFar(path, p, file, reply, seen, tried, whole) && Fits(path[p..EndOf(path, p)], file)
    ensures var z, e := EndOf(path, p), reply(|tried|);
      var all := tried + [Candidate(path[p..z], file)];
      if GoesOn(e) then SoFarBehind(path, z, file, reply, seen || e == EACCES, all, whole) else whole == Verdict(e, all)
  {
    assert Attempt(|tried|);
    var z, e := EndOf(path, p), reply(|tried|);
    Regroup(tried, Candidate(path[p..z], file), SoughtBehind(path, z, file, reply, |tried| + 1, seen || e == EACCES));
  }

  /** Behind an entry there is another, or the end. */
  ghost predicate Comes(path: Text, z: nat, file: Text, reply: Replies, seen: bool, tried: seq<Text>, whole: Verdict)
    requires z <= |path|
  {
    if z == |path| then whole == Verdict(if seen then EACCES else ENOENT, tried)
    else SoFar(path, z + 1, file, reply, seen, tried, whole)
  }

  lemma Ends(path: Text, z: nat, file: Text, reply: Replies, seen: bool, tried: seq<Text>, whole: Verdict)
    requires z <= |path| && SoFarBehind(path, z, file, reply, seen, tried, whole)
    ensures Comes(path, z, file, reply, seen, tried, whole)
  {
    assert Attempt(|tried|);
  }

  /** The search is over, or it has come behind an entry. */
  ghost predicate Stands(path: Text, z: nat, file: Text, reply: Replies, over: bool, r: nat, all: seq<Text>,
                         refused: bool, whole: Verdict)
    requires z <= |path|
  {
    if over then whole == Verdict(r, all) else Comes(path, z, file, reply, refused, all, whole)
  }

  /** What one turn has come to, by what it has tried, been answered and remembered. */
  lemma {:induction false} TurnTells(path: Text, p: nat, file: Text, reply: Replies, seen: bool, tried: seq<Text>,
                                     whole: Verdict, over: bool, r: nat, all: seq<Text>, refused: bool)
    requires p <= |path| && SoFar(path, p, file, reply, seen, tried, whole)
    requires var entry := path[p..EndOf(path, p)];
      if Fits(entry, file)
      then r == reply(|tried|) && all == tried + [Candidate(entry, file)] && over == !GoesOn(r) &&
          refused == (seen || r == EACCES)
      else !over && all == tried && refused == seen
    ensures Stands(path, EndOf(path, p), file, reply, over, r, all, refused, whole)
  {
    var z := EndOf(path, p);
    if Fits(path[p..z], file) {
      Tries(path, p, file, reply, seen, tried, whole);
    } else {
      Passes(path, p, file, reply, seen, tried, whole);
    }
    if !over { Ends(path, z, file, reply, refused, all, whole); }
  }

  /** What one turn of the loop tries, is answered and remembers; `over` when the search ends with it. */
  method TryEntry(cand: array<char>, path: Text, p: nat, file: Text, reply: Replies, tried: seq<Text>, seen: bool,
                  ghost whole: Verdict)
    returns (z: nat, over: bool, r: nat, all: seq<Text>, refused: bool)
    requires p <= |path| && cand.Length == MAX_PATH && SoFar(path, p, file, reply, seen, tried, whole)
    modifies cand
    ensures p <= z <= |path| && Stands(path, z, file, reply, over, r, all, refused, whole)
  {
    z := EntryEnd(path, p);
    over, r, all, refused := false, 0, tried, seen;
    var n := z - p;
    if n + (if n != 0 then 1 else 0) + |file| + 1 <= MAX_PATH {
      var text := Compose(cand, path, p, n, file);
      r := reply(|tried|);
      all := tried + [text];
      if r == EACCES {
        refused := true;
      } else if r != ENOENT && r != ENOTDIR {
        over := true;
      }
    }
    TurnTells(path, p, file, reply, seen, tried, whole, over, r, all, refused);
  }

  lemma {:induction false} NothingTried(path: Text, file: Text, reply: Replies)
    ensures SoFar(path, 0, file, reply, false, [], Sought(path, 0, file, reply, 0, false))
  {
    var whole := Sought(path, 0, file, reply, 0, false);
    assert [] + whole.tried == whole.tried;
  }

  /** The loop over the entries has come to one, or to its verdict. */
  ghost predicate Arrived(path: Text, p: nat, file: Text, reply: Replies, over: bool, seen: bool, tried: seq<Text>,
                          r: nat, whole: Verdict)
  {
    if over then whole == Verdict(r, tried) else p <= |path| && SoFar(path, p, file, reply, seen, tried, whole)
  }

  /** One turn of the loop. */
  method Turn(cand: array<char>, path: Text, p: nat, file: Text, reply: Replies, tried: seq<Text>, seen: bool,
              ghost whole: Verdict)
    returns (q: nat, over: bool, r: nat, all: seq<Text>, refused: bool)
    requires cand.Length == MAX_PATH && Arrived(path, p, file, reply, false, seen, tried, 0, whole)
    modifies cand
    ensures !over ==> p < q <= |path|
    ensures Arrived(path, q, file, reply, over, refused, all, r, whole)
  {
    var z;
    z, over, r, all, refused := TryEntry(cand, path, p, file, reply, tried, seen, whole);
    q := z + 1;
    if !over && z == |path| {
      over, r := true, if refused then EACCES else ENOENT;
    }
  }

  /** The loop over the entries. */
  method TryAll(path: Text, file: Text, reply: Replies, ghost whole: Verdict) returns (v: Verdict)
    requires Arrived(path, 0, file, reply, false, false, [], 0, whole)
    ensures v == whole
  {
    var cand := new char[MAX_PATH];
    var seen, p: nat, tried, over, r := false, 0, [], false, 0;
    while !over
      invariant Arrived(path, p, file, reply, over, seen, tried, r, whole) && (!over ==> p <= |path|)
      decreases !over, |path| - p
    {
      p, over, r, tried, seen := Turn(cand, path, p, file, reply, tried, seen, whole);
    }
    v := Verdict(r, tried);
  }

  /** The search. */
  method Search(path: Text, file: Text, reply: Replies) returns (v: Verdict)
    ensures v == Sought(path, 0, file, reply, 0, false)
  {
    NothingTried(path, file, reply);
    v := TryAll(path, file, reply, Sought(path, 0, file, reply, 0, false));
  }

  /** `__posix_spawnp`, of a name and the search path the environment has, if it has one. */
  method SpawnByName(file: Text, path: Option<Text>, reply: Replies) returns (v: Verdict)
    ensures file == [] ==> v == Verdict(ENOENT, [])
    ensures '/' in file ==> v == Verdict(reply(0), [file])
    ensures file != [] && '/' !in file && |file| > NAME_MAX ==> v == Verdict(ENAMETOOLONG, [])
    ensures file != [] && '/' !in file && |file| <= NAME_MAX ==>
      Concludes(Candidates(Entries(if path.Some? then path.value else DEFAULT_PATH, 0), file), reply, 0, false, v)
  {
    if file == [] { return Verdict(ENOENT, []); }
    for i := 0 to |file|
      invariant '/' !in file[..i]
    {
      if file[i] == '/' { return Verdict(reply(0), [file]); }
    }
    assert file[..|file|] == file;
    if |file| > NAME_MAX { return Verdict(ENAMETOOLONG, []); }
    var where := if path.Some? then path.value else DEFAULT_PATH;
    v := Search(where, file, reply);
    SearchConcludes(where, 0, file, reply, 0, false);
  }
}
