/**
  The three streams that a program is started upon: what the caller's descriptors and its list of file
  actions ask for, position by position, without regard to how the request is written down.
*/
module Spawn {
  import opened Options

  const ENOSYS: Errno := 38
  const EBADF: Errno := 9
  const ENOTCONN: Errno := 107
  const MAX_OPEN: nat := 8

  /** An error's number; zero is success. */
  type Errno = e: nat | e > 0 witness 1

  /** What a descriptor of the caller names, as far as a stream goes: one that has a stream, a socket
      whose stream is zero until it is connected, the null device, a directory. */
  datatype Desc = Carries(h: nat) | Socket(h: nat) | Null | Dir(d: nat)

  /** The caller's descriptors, and the streams its own program began with. */
  datatype Caller = Caller(fds: map<int, Desc>, std: seq<nat>) {
    predicate Valid() { |std| == 3 }
  }

  /** What resolving and opening a file action's name gives: the null device's name, an error, or a
      file and its stream. */
  datatype Opened = NullName | NoFile(e: Errno) | File(f: nat, h: nat)

  datatype OpenedDir = NoDir(e: Errno) | HasDir(d: nat)

  datatype Action =
    | Dup2(fd: int, src: int)
    | Open(fd: int, got: Opened)
    | Close(fd: int)
    | Chdir(dir: OpenedDir)
    | Fchdir(fd: int, dir: OpenedDir)
    | Other

  /** What a position is to be. */
  datatype What = Inherit | NullDevice | Handle(h: nat)

  /** What is asked of one position, or that it cannot be said. */
  datatype Request = Gives(w: What) | Cannot(e: Errno)

  /** What an action does: it settles a position, or says nothing about any, or cannot be performed. */
  datatype Effect = Sets(pos: nat, w: What) | Silent | Fails(e: Errno)

  // --- what is asked for ---

  /** A stream at a position. The stream the program began with there is inheritance; any other stream
      whose handle is zero cannot be said, since zero means inheritance. */
  function Stream(c: Caller, pos: nat, h: nat): Request
    requires c.Valid() && pos < 3
  {
    if h == c.std[pos] then Gives(Inherit) else if h == 0 then Cannot(ENOSYS) else Gives(Handle(h))
  }

  function Descriptor(c: Caller, fd: int, pos: nat): Request
    requires c.Valid() && pos < 3
  {
    if fd !in c.fds then Cannot(EBADF)
    else match c.fds[fd]
      case Null => Gives(NullDevice)
      case Carries(h) => Stream(c, pos, h)
      case Socket(h) => if h == 0 then Cannot(ENOTCONN) else Stream(c, pos, h)
      case Dir(_) => Cannot(EBADF)
  }

  function At(pos: nat, r: Request): Effect {
    match r
    case Gives(w) => Sets(pos, w)
    case Cannot(e) => Fails(e)
  }

  /** What an action does, when so many files have been opened before it. */
  function Does(c: Caller, a: Action, files: nat): Effect
    requires c.Valid()
  {
    match a
    case Dup2(fd, src) => if fd < 0 || fd > 2 then Fails(ENOSYS) else At(fd, Descriptor(c, src, fd))
    case Open(fd, got) =>
      if fd < 0 || fd > 2 then Fails(ENOSYS)
      else if got.NullName? then Sets(fd, NullDevice)
      else if files >= MAX_OPEN then Fails(ENOSYS)
      else if got.NoFile? then Fails(got.e)
      else At(fd, Stream(c, fd, got.h))
    case Close(fd) => if fd > 2 then Silent else Fails(ENOSYS)
    case Chdir(dir) => if dir.NoDir? then Fails(dir.e) else Silent
    case Fchdir(fd, dir) =>
      if fd !in c.fds || !c.fds[fd].Dir? then Fails(EBADF)
      else if dir.NoDir? then Fails(dir.e) else Silent
    case Other => Fails(ENOSYS)
  }

  /** The file an action opens, if it gets so far. */
  function FileOf(a: Action, files: nat): Option<(nat, nat)> {
    if a.Open? && 0 <= a.fd <= 2 && a.got.File? && files < MAX_OPEN then Some((a.got.f, a.got.h)) else None
  }

  function DirOf(c: Caller, a: Action): Option<nat> {
    match a
    case Chdir(HasDir(d)) => Some(d)
    case Fchdir(fd, HasDir(d)) => if fd in c.fds && c.fds[fd].Dir? then Some(d) else None
    case _ => None
  }

  /** The files a list of actions opens, in order. */
  function Files(actions: seq<Action>): seq<nat>
    decreases |actions|
  {
    if actions == [] then []
    else
      var k := |actions| - 1;
      var before := Files(actions[..k]);
      var f := FileOf(actions[k], |before|);
      if f.Some? then before + [f.value.0] else before
  }

  function Dirs(c: Caller, actions: seq<Action>): seq<nat>
    decreases |actions|
  {
    if actions == [] then []
    else
      var k := |actions| - 1;
      var d := DirOf(c, actions[k]);
      if d.Some? then Dirs(c, actions[..k]) + [d.value] else Dirs(c, actions[..k])
  }

  /** What the `i`-th action of a list does. */
  function Effects(c: Caller, actions: seq<Action>, i: nat): Effect
    requires c.Valid() && i < |actions|
  {
    Does(c, actions[i], |Files(actions[..i])|)
  }

  /** The action that settles a position: the last that names it. */
  ghost predicate Settles(c: Caller, actions: seq<Action>, pos: nat, i: nat)
    requires c.Valid()
  {
    && i < |actions| && Effects(c, actions, i).Sets? && Effects(c, actions, i).pos == pos
    && forall j :: i < j < |actions| ==> !(Effects(c, actions, j).Sets? && Effects(c, actions, j).pos == pos)
  }

  /** What a position is to be: as the last action that names it says, or, if none does, as the caller's
      own descriptor of that number. */
  ghost predicate Wants(c: Caller, actions: seq<Action>, pos: nat, w: What)
    requires c.Valid() && pos < 3
  {
    || (exists i :: Settles(c, actions, pos, i) && Effects(c, actions, i).w == w)
    || ((forall i :: 0 <= i < |actions| ==> !(Effects(c, actions, i).Sets? && Effects(c, actions, i).pos == pos))
        && Descriptor(c, pos, pos) == Gives(w))
  }

  /** The list is refused for such a reason: the first of the three descriptors, or else the first action,
      that cannot be expressed. */
  ghost predicate RefusedFor(c: Caller, actions: seq<Action>, e: Errno)
    requires c.Valid()
  {
    if !Seeded(c) then
      exists pos: nat :: pos < 3 && Descriptor(c, pos, pos) == Cannot(e) && forall q :: 0 <= q < pos ==>
          Descriptor(c, q, q).Gives?
    else
      exists i :: 0 <= i < |actions| && Effects(c, actions, i) == Fails(e)
                  && forall j :: 0 <= j < i ==> !Effects(c, actions, j).Fails?
  }

  predicate Seeded(c: Caller)
    requires c.Valid()
  {
    Descriptor(c, 0, 0).Gives? && Descriptor(c, 1, 1).Gives? && Descriptor(c, 2, 2).Gives?
  }

  ghost predicate Accepted(c: Caller, actions: seq<Action>)
    requires c.Valid()
  {
    Seeded(c) && forall i :: 0 <= i < |actions| ==> !Effects(c, actions, i).Fails?
  }

  /** So many actions have been begun when the list is refused or all of it has been performed. */
  ghost predicate Begun(c: Caller, actions: seq<Action>, n: nat)
    requires c.Valid()
  {
    && n <= |actions| && (!Seeded(c) ==> n == 0)
    && (forall j :: 0 <= j < n - 1 ==> !Effects(c, actions, j).Fails?)
    && (Seeded(c) && n < |actions| ==> n > 0 && Effects(c, actions, n - 1).Fails?)
  }

  /** A stream that is not inheritance is named somewhere: by one of the three descriptors or by an
      action, whether or not a later action settles the position otherwise. */
  ghost predicate Chooses(c: Caller, actions: seq<Action>)
    requires c.Valid()
  {
    || (exists pos: nat :: pos < 3 && Descriptor(c, pos, pos).Gives? && Descriptor(c, pos, pos).w.Handle?)
    || exists i :: 0 <= i < |actions| && Effects(c, actions, i).Sets? && Effects(c, actions, i).w.Handle?
  }

  // --- one action more ---

  lemma {:induction false} EffectsPrefix(c: Caller, actions: seq<Action>, a: Action, i: nat)
    requires c.Valid() && i <= |actions|
    ensures i < |actions| ==> Effects(c, actions + [a], i) == Effects(c, actions, i)
    ensures i == |actions| ==> Effects(c, actions + [a], i) == Does(c, a, |Files(actions)|)
  {
    assert (actions + [a])[..i] == actions[..i];
    assert actions[..|actions|] == actions;
  }

  lemma {:induction false} AllEffectsPrefix(c: Caller, actions: seq<Action>, a: Action)
    requires c.Valid()
    ensures forall i :: 0 <= i < |actions| ==> Effects(c, actions + [a], i) == Effects(c, actions, i)
    ensures Effects(c, actions + [a], |actions|) == Does(c, a, |Files(actions)|)
  {
    forall i | 0 <= i <= |actions|
      ensures i < |actions| ==> Effects(c, actions + [a], i) == Effects(c, actions, i)
      ensures i == |actions| ==> Effects(c, actions + [a], i) == Does(c, a, |Files(actions)|)
    {
      EffectsPrefix(c, actions, a, i);
    }
  }

  /** An action that settles a position does so whatever came before; another leaves it as it was. */
  lemma {:induction false} WantsNext(c: Caller, actions: seq<Action>, a: Action, pos: nat, w: What)
    requires c.Valid() && pos < 3
    requires var x := Does(c, a, |Files(actions)|);
      if x.Sets? && x.pos == pos then x.w == w else Wants(c, actions, pos, w)
    ensures Wants(c, actions + [a], pos, w)
  {
    var all := actions + [a];
    AllEffectsPrefix(c, actions, a);
    var x := Does(c, a, |Files(actions)|);
    if x.Sets? && x.pos == pos {
      assert Settles(c, all, pos, |actions|);
    } else if i :| Settles(c, actions, pos, i) && Effects(c, actions, i).w == w {
      assert Settles(c, all, pos, i);
    }
  }

  /** There is one answer for each position. */
  lemma WantsOne(c: Caller, actions: seq<Action>, pos: nat, v: What, w: What)
    requires c.Valid() && pos < 3 && Wants(c, actions, pos, v) && Wants(c, actions, pos, w)
    ensures v == w
  {
    if i, j :| Settles(c, actions, pos, i) && Effects(c, actions, i).w == v
               && Settles(c, actions, pos, j) && Effects(c, actions, j).w == w {
      assert i == j;
    }
  }

  lemma {:induction false} ChoosesNext(c: Caller, actions: seq<Action>, a: Action)
    requires c.Valid()
    ensures var x := Does(c, a, |Files(actions)|);
      Chooses(c, actions + [a]) <==> Chooses(c, actions) || (x.Sets? && x.w.Handle?)
  {
    var all := actions + [a];
    AllEffectsPrefix(c, actions, a);
    var x := Does(c, a, |Files(actions)|);
    if x.Sets? && x.w.Handle? {
      assert Effects(c, all, |actions|).w.Handle?;
    }
    if i :| 0 <= i < |actions| && Effects(c, actions, i).Sets? && Effects(c, actions, i).w.Handle? {
      assert Effects(c, all, i).w.Handle?;
    }
  }

  lemma {:induction false} AcceptedNext(c: Caller, actions: seq<Action>, a: Action)
    requires c.Valid()
    ensures Accepted(c, actions + [a]) <==> Accepted(c, actions) && !Does(c, a, |Files(actions)|).Fails?
  {
    var all := actions + [a];
    AllEffectsPrefix(c, actions, a);
    if Accepted(c, all) {
      forall i | 0 <= i < |actions| ensures !Effects(c, actions, i).Fails? { assert !Effects(c, all, i).Fails?; }
      assert !Effects(c, all, |actions|).Fails?;
    }
  }

  lemma {:induction false} FilesNext(actions: seq<Action>, a: Action)
    ensures var f := FileOf(a, |Files(actions)|);
      Files(actions + [a]) == if f.Some? then Files(actions) + [f.value.0] else Files(actions)
  {
    assert (actions + [a])[..|actions|] == actions;
  }

  lemma {:induction false} DirsNext(c: Caller, actions: seq<Action>, a: Action)
    ensures var d := DirOf(c, a);
      Dirs(c, actions + [a]) == if d.Some? then Dirs(c, actions) + [d.value] else Dirs(c, actions)
  {
    assert (actions + [a])[..|actions|] == actions;
  }

  /** The first action that fails is why the whole list is refused. */
  lemma RefusedAt(c: Caller, actions: seq<Action>, i: nat, e: Errno)
    requires c.Valid() && i < |actions| && Accepted(c, actions[..i])
    requires Does(c, actions[i], |Files(actions[..i])|) == Fails(e)
    ensures RefusedFor(c, actions, e) && !Accepted(c, actions) && Begun(c, actions, i + 1)
  {
    forall j | 0 <= j < i ensures !Effects(c, actions, j).Fails? {
      assert actions[..i][..j] == actions[..j];
      assert !Effects(c, actions[..i], j).Fails?;
    }
    assert Effects(c, actions, i) == Fails(e);
  }

  /** A list is refused for one reason, and exactly when it is not accepted. */
  lemma RefusedOnce(c: Caller, actions: seq<Action>)
    requires c.Valid()
    ensures Accepted(c, actions) <==> forall e: Errno :: !RefusedFor(c, actions, e)
    ensures forall d: Errno, e: Errno :: RefusedFor(c, actions, d) && RefusedFor(c, actions, e) ==> d == e
  {
    if !Seeded(c) {
      var pos: nat := if Descriptor(c, 0, 0).Cannot? then 0 else if Descriptor(c, 1, 1).Cannot? then 1 else 2;
      assert RefusedFor(c, actions, Descriptor(c, pos, pos).e);
    } else if !Accepted(c, actions) {
      var i := FirstFailing(c, actions, 0);
      assert RefusedFor(c, actions, Effects(c, actions, i).e);
    }
    forall d: Errno, e: Errno | RefusedFor(c, actions, d) && RefusedFor(c, actions, e) ensures d == e {
      if Seeded(c) {
        var i :| 0 <= i < |actions| && Effects(c, actions, i) == Fails(d) && forall j :: 0 <= j < i ==>
            !Effects(c, actions, j).Fails?;
        var k :| 0 <= k < |actions| && Effects(c, actions, k) == Fails(e) && forall j :: 0 <= j < k ==>
            !Effects(c, actions, j).Fails?;
        assert i == k;
      }
    }
  }

  lemma {:induction false} FirstFailing(c: Caller, actions: seq<Action>, from: nat) returns (i: nat)
    requires c.Valid() && from <= |actions|
    requires forall j :: 0 <= j < from ==> !Effects(c, actions, j).Fails?
    requires exists j :: 0 <= j < |actions| && Effects(c, actions, j).Fails?
    ensures i < |actions| && Effects(c, actions, i).Fails? && forall j :: 0 <= j < i ==> !Effects(c, actions, j).Fails?
    decreases |actions| - from
  {
    if Effects(c, actions, from).Fails? { i := from; } else { i := FirstFailing(c, actions, from + 1); }
  }

  // --- what the environment is asked ---

  /** What the environment can do: give a position its own null device; pass a stream on. */
  datatype Props = Props(nulls: bool, passing: bool)

  /** The call is refused, or the environment is asked to start the program with three handles, of which
      zero is inheritance, with the positions that are to have its null device, and in a directory. */
  datatype Outcome = Refused(e: Errno) | Asked(streams: seq<nat>, nulls: seq<bool>, work: Option<nat>)

  function Decode(h: nat, isNull: bool): What {
    if isNull then NullDevice else if h == 0 then Inherit else Handle(h)
  }

  /** The null device where the environment has none of its own: the stream of a file of that name. */
  function Substituted(c: Caller, pos: nat, w: What, props: Props, h: nat): Request
    requires c.Valid() && pos < 3
  {
    if w.NullDevice? && !props.nulls then Stream(c, pos, h) else Gives(w)
  }

  ghost predicate NeedsNull(c: Caller, actions: seq<Action>)
    requires c.Valid()
  {
    exists pos: nat :: pos < 3 && Wants(c, actions, pos, NullDevice)
  }

  /** The file of that name has to be opened. */
  ghost predicate OpensNull(c: Caller, actions: seq<Action>, props: Props)
    requires c.Valid()
  {
    Accepted(c, actions) && !props.nulls && NeedsNull(c, actions)
  }

  /** What a position is given is what it was to be. */
  ghost predicate Faithful(c: Caller, actions: seq<Action>, props: Props, nullH: nat, out: Outcome, pos: nat)
    requires c.Valid() && pos < 3 && out.Asked? && |out.streams| == |out.nulls| == 3
  {
    exists w :: Wants(c, actions, pos, w) &&
        Substituted(c, pos, w, props, nullH) == Gives(Decode(out.streams[pos], out.nulls[pos]))
  }

  /** A stream other than the inherited one is named, in the actions or in place of the null device. */
  ghost predicate NeedsPassing(c: Caller, actions: seq<Action>, props: Props, nullH: nat)
    requires c.Valid()
  {
    || Chooses(c, actions)
    || (OpensNull(c, actions, props)
        && exists pos: nat :: pos < 3 && Wants(c, actions, pos, NullDevice) && nullH != c.std[pos] && nullH != 0)
  }

  /** The null device's file cannot be had, or its stream cannot be said where it is wanted. */
  ghost predicate NullRefused(c: Caller, actions: seq<Action>, props: Props, got: Opened, e: Errno)
    requires c.Valid()
  {
    && OpensNull(c, actions, props)
    && if |Files(actions)| >= MAX_OPEN then e == ENOSYS
       else if got.NoFile? then e == got.e
       else got.File? && e == ENOSYS && exists pos: nat ::
           pos < 3 && Wants(c, actions, pos, NullDevice) && Stream(c, pos, got.h).Cannot?
  }

  function HandleOf(got: Opened): nat { if got.File? then got.h else 0 }

  /** Why a call is refused. */
  ghost predicate Refuses(c: Caller, actions: seq<Action>, props: Props, got: Opened, e: Errno)
    requires c.Valid()
  {
    || RefusedFor(c, actions, e)
    || NullRefused(c, actions, props, got, e)
    || (&& Accepted(c, actions) && (forall d: Errno :: !NullRefused(c, actions, props, got, d))
        && NeedsPassing(c, actions, props, HandleOf(got)) && !props.passing && e == ENOSYS)
  }

  /** The three handles and the positions of the null device say what the actions ask for. */
  ghost predicate Says(c: Caller, actions: seq<Action>, s: seq<nat>, at: seq<bool>)
    requires c.Valid()
  {
    && |s| == |at| == 3 && Accepted(c, actions)
    && forall pos :: 0 <= pos < 3 ==> Wants(c, actions, pos, Decode(s[pos], at[pos])) && (at[pos] ==> s[pos] == 0)
  }

  lemma NullPositions(c: Caller, actions: seq<Action>, s: seq<nat>, at: seq<bool>)
    requires c.Valid() && Says(c, actions, s, at)
    ensures forall pos :: 0 <= pos < 3 ==> (at[pos] <==> Wants(c, actions, pos, NullDevice))
    ensures NeedsNull(c, actions) <==> at[0] || at[1] || at[2]
  {
    forall pos | 0 <= pos < 3 ensures at[pos] <==> Wants(c, actions, pos, NullDevice) {
      if Wants(c, actions, pos, NullDevice) { WantsOne(c, actions, pos, NullDevice, Decode(s[pos], at[pos])); }
    }
    assert at[0] ==> Wants(c, actions, 0, NullDevice);
    assert at[1] ==> Wants(c, actions, 1, NullDevice);
    assert at[2] ==> Wants(c, actions, 2, NullDevice);
  }

  /** Each position is given what it was to be, and a stream is placed somewhere only if one was named. */
  ghost predicate Delivers(c: Caller, actions: seq<Action>, props: Props, got: Opened, t: seq<nat>, nulls: seq<bool>,
                           placed: bool)
    requires c.Valid()
  {
    && |t| == |nulls| == 3
    && (forall e: Errno :: !NullRefused(c, actions, props, got, e))
    && (forall pos :: 0 <= pos < 3 ==> Faithful(c, actions, props, HandleOf(got), Asked(t, nulls, None), pos))
    && (forall pos :: 0 <= pos < 3 ==> (nulls[pos] ==> props.nulls && t[pos] == 0) && (t[pos] != 0 ==> placed))
    && (placed <==> NeedsPassing(c, actions, props, HandleOf(got)))
  }

  /** Where no position has the null device, or the environment has its own. */
  lemma NothingOpened(c: Caller, actions: seq<Action>, props: Props, got: Opened, s: seq<nat>, at: seq<bool>,
                      placed: bool)
    requires c.Valid() && Says(c, actions, s, at) && (props.nulls || !(at[0] || at[1] || at[2]))
    requires (placed <==> Chooses(c, actions)) && forall pos :: 0 <= pos < 3 && s[pos] != 0 ==> placed
    ensures Delivers(c, actions, props, got, s, at, placed) && !OpensNull(c, actions, props)
  {
    NullPositions(c, actions, s, at);
    forall pos | 0 <= pos < 3 ensures Faithful(c, actions, props, HandleOf(got), Asked(s, at, None), pos) {
      assert Wants(c, actions, pos, Decode(s[pos], at[pos]));
    }
  }

  /** Where a file takes the place of the null device. */
  lemma {:induction false} FileOpened(c: Caller, actions: seq<Action>, props: Props, got: Opened, s: seq<nat>,
                                      at: seq<bool>,
                   t: seq<nat>, nulls: seq<bool>, chose: bool, placed: bool)
    requires c.Valid() && Says(c, actions, s, at) && !props.nulls && (at[0] || at[1] || at[2]) && got.File?
    requires |Files(actions)| < MAX_OPEN
    requires |t| == |nulls| == 3 && forall pos :: 0 <= pos < 3 ==> !nulls[pos]
    requires forall pos :: 0 <= pos < 3 ==>
      if at[pos] then Stream(c, pos, got.h) == Gives(Decode(t[pos], false)) else t[pos] == s[pos]
    requires (chose <==> Chooses(c, actions)) && forall pos :: 0 <= pos < 3 && s[pos] != 0 ==> chose
    requires placed <==> chose || exists pos: nat :: pos < 3 && at[pos] && got.h != c.std[pos] && got.h != 0
    ensures Delivers(c, actions, props, got, t, nulls, placed) && OpensNull(c, actions, props)
  {
    NullPositions(c, actions, s, at);
    forall pos | 0 <= pos < 3 ensures Faithful(c, actions, props, got.h, Asked(t, nulls, None), pos) {
      assert Wants(c, actions, pos, Decode(s[pos], at[pos]));
    }
  }

  /** Where that file cannot be had or cannot be placed. */
  lemma {:induction false} FileRefused(c: Caller, actions: seq<Action>, props: Props, got: Opened, s: seq<nat>,
                                       at: seq<bool>, e: Errno)
    requires c.Valid() && Says(c, actions, s, at) && !props.nulls && (at[0] || at[1] || at[2]) && !got.NullName?
    requires if |Files(actions)| >= MAX_OPEN then e == ENOSYS
      else if got.NoFile? then e == got.e
      else e == ENOSYS && exists pos: nat :: pos < 3 && at[pos] && Stream(c, pos, got.h).Cannot?
    ensures NullRefused(c, actions, props, got, e)
  {
    NullPositions(c, actions, s, at);
  }

  /** What the environment is asked: each position as it was to be, a handle of the caller's choosing and
      the environment's null device only where the environment can give them, and the directory that was
      named last. */
  ghost predicate Granted(c: Caller, actions: seq<Action>, props: Props, nullH: nat, out: Outcome)
    requires c.Valid() && out.Asked?
  {
    && |out.streams| == |out.nulls| == 3
    && (forall pos :: 0 <= pos < 3 ==> Faithful(c, actions, props, nullH, out, pos))
    && (forall pos :: 0 <= pos < 3 && out.streams[pos] != 0 ==> props.passing && !out.nulls[pos])
    && (forall pos :: 0 <= pos < 3 && out.nulls[pos] ==> props.nulls)
    && var dirs := Dirs(c, actions);
       out.work == if dirs == [] then None else Some(dirs[|dirs| - 1])
  }

  lemma {:induction false} GrantedBy(c: Caller, actions: seq<Action>, props: Props, got: Opened, out: Outcome,
                                     placed: bool)
    requires c.Valid() && out.Asked? && Delivers(c, actions, props, got, out.streams, out.nulls, placed)
    requires Accepted(c, actions) && (placed ==> props.passing)
    requires var dirs := Dirs(c, actions); out.work == if dirs == [] then None else Some(dirs[|dirs| - 1])
    ensures Granted(c, actions, props, HandleOf(got), out)
    ensures forall e: Errno :: !Refuses(c, actions, props, got, e)
  {
    RefusedOnce(c, actions);
    forall pos | 0 <= pos < 3 ensures Faithful(c, actions, props, HandleOf(got), out, pos) {
      assert Faithful(c, actions, props, HandleOf(got), Asked(out.streams, out.nulls, None), pos);
    }
  }

  // --- when a stream that is not inheritance counts ---

  /** A list that can be expressed, and whose null device can be had, is refused exactly when streams cannot
      be passed on and one is named: anywhere in the list or among the caller's own, or in place of the null
      device at a position that is left with it. */
  lemma {:induction false} RefusedWithoutPassing(c: Caller, actions: seq<Action>, props: Props, got: Opened, e: Errno)
    requires c.Valid() && Accepted(c, actions) && forall d: Errno :: !NullRefused(c, actions, props, got, d)
    ensures Refuses(c, actions, props, got, e) <==>
      e == ENOSYS && !props.passing && NeedsPassing(c, actions, props, HandleOf(got))
    ensures NeedsPassing(c, actions, props, HandleOf(got)) <==>
      || Chooses(c, actions)
      || (!props.nulls && exists pos: nat, h: nat ::
            pos < 3 && h != 0 && Wants(c, actions, pos, NullDevice) &&
                Stream(c, pos, HandleOf(got)) == Gives(Handle(h)))
  {
    RefusedOnce(c, actions);
    forall pos: nat | pos < 3
      ensures HandleOf(got) != c.std[pos] && HandleOf(got) != 0 <==>
        Stream(c, pos, HandleOf(got)) == Gives(Handle(HandleOf(got)))
    {
    }
  }

  /** Whenever a position would be given such a stream, one is named. */
  lemma NeededIsNamed(c: Caller, actions: seq<Action>, pos: nat, h: nat)
    requires c.Valid() && pos < 3 && Wants(c, actions, pos, Handle(h))
    ensures Chooses(c, actions)
  {
    if i :| Settles(c, actions, pos, i) && Effects(c, actions, i).w == Handle(h) {
      assert Effects(c, actions, i).w.Handle?;
    } else {
      assert Descriptor(c, pos, pos).w.Handle?;
    }
  }

  /** That is more than the handles it would pass: here a stream is named and then taken back, nothing but
      inheritance would be asked for, and the start is refused all the same. */
  lemma TakenBackIsRefused(got: Opened) returns (c: Caller, actions: seq<Action>)
    ensures c.Valid() && Accepted(c, actions)
    ensures forall pos :: 0 <= pos < 3 ==> Wants(c, actions, pos, Inherit)
    ensures Refuses(c, actions, Props(true, false), got, ENOSYS)
  {
    c := Caller(map[0 := Carries(10), 1 := Carries(11), 2 := Carries(12), 3 := Carries(13)], [10, 11, 12]);
    var a, b := Dup2(1, 3), Dup2(1, 1);
    assert [a] + [b] == [a, b] && [] + [a] == [a];
    actions := [a] + [b];
    AcceptedNext(c, [], a);
    AcceptedNext(c, [a], b);
    ChoosesNext(c, [], a);
    ChoosesNext(c, [a], b);
    forall pos | 0 <= pos < 3 ensures Wants(c, actions, pos, Inherit) {
      if pos == 1 {
        WantsNext(c, [a], b, pos, Inherit);
      } else {
        assert Wants(c, [], pos, Inherit);
        WantsNext(c, [], a, pos, Inherit);
        WantsNext(c, [a], b, pos, Inherit);
      }
    }
    RefusedWithoutPassing(c, actions, Props(true, false), got, ENOSYS);
  }
}
