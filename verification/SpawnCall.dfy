/**
  `__okm_spawn_common`, as it goes about it: three handles in which zero is both a valid handle and the
  word for inheritance, the positions that have the null device, the files and the directory that the
  call itself opens.
*/
module SpawnCall {
  import opened Options
  import opened Spawn

  /** The actions from the first to the last: the list begins with the last. */
  function InOrder(list: seq<Action>): (actions: seq<Action>)
    ensures |actions| == |list| && forall i :: 0 <= i < |list| ==> actions[i] == list[|list| - 1 - i]
  {
    seq(|list|, i requires 0 <= i < |list| => list[|list| - 1 - i])
  }

  class Call {
    const caller: Caller
    const streams: array<nat>
    const nullAt: array<bool>
    const files: array<nat>
    var placed: bool
    var filesN: nat
    var where: Option<nat>
    var closedFiles: seq<nat>         // what has been given back to the environment, in order
    var closedDirs: seq<nat>
    ghost var gotFiles: seq<nat>      // what the environment has given
    ghost var gotDirs: seq<nat>

    ghost predicate Valid()
      reads this
    {
      && caller.Valid() && streams.Length == 3 && nullAt.Length == 3 && files.Length == MAX_OPEN
      && filesN <= MAX_OPEN
    }

    /** What the call holds is what it was given and has not given back. */
    ghost predicate Holds()
      reads this, files
      requires Valid()
    {
      && closedFiles == [] && gotFiles == files[..filesN]
      && gotDirs == (closedDirs + if where.Some? then [where.value] else []) && (where.None? ==> closedDirs == [])
    }

    function Shown(pos: nat): What
      reads this, streams, nullAt
      requires Valid() && pos < 3
    {
      Decode(streams[pos], nullAt[pos])
    }

    /** After these actions, each position shows what they ask for it. */
    ghost predicate Reflects(done: seq<Action>)
      reads this, streams, nullAt, files
      requires Valid()
    {
      && Accepted(caller, done)
      && (forall pos :: 0 <= pos < 3 ==> Wants(caller, done, pos, Shown(pos)))
      && (forall pos :: 0 <= pos < 3 && nullAt[pos] ==> streams[pos] == 0)
      && (forall pos :: 0 <= pos < 3 && streams[pos] != 0 ==> placed)
      && (placed <==> Chooses(caller, done))
      && gotFiles == Files(done) && gotDirs == Dirs(caller, done)
    }

    constructor (caller: Caller)
      requires caller.Valid()
      ensures Valid() && Holds() && this.caller == caller && fresh(streams) && fresh(nullAt) && fresh(files)
      ensures !placed && gotFiles == [] && gotDirs == [] && closedDirs == [] && where == None
      ensures forall pos :: 0 <= pos < 3 ==> streams[pos] == 0 && !nullAt[pos]
    {
      this.caller := caller;
      streams := new nat[3](_ => 0);
      nullAt := new bool[3](_ => false);
      files := new nat[MAX_OPEN](_ => 0);
      placed, filesN, where := false, 0, None;
      closedFiles, closedDirs, gotFiles, gotDirs := [], [], [], [];
    }

    /** `place`: zero, or an error. */
    method Place(pos: nat, stream: nat) returns (r: nat)
      requires Valid() && pos < 3
      modifies this`placed, streams, nullAt
      ensures Valid()
      ensures nullAt[..] == old(nullAt[..])[pos := false]
      ensures match Stream(caller, pos, stream)
        case Cannot(e) => r == e && placed == old(placed) && streams[..] == old(streams[..])
        case Gives(w) =>
          && r == 0 && Shown(pos) == w && placed == (old(placed) || w.Handle?)
          && streams[..] == old(streams[..])[pos := streams[pos]]
    {
      nullAt[pos] := false;
      var s := stream;
      if s == caller.std[pos] {
        s := 0;
      } else if s == 0 {
        return ENOSYS;
      } else {
        placed := true;
      }
      streams[pos] := s;
      r := 0;
    }

    /** `place_null`: the position shows the null device, and no other shows anything else than before. */
    method PlaceNull(pos: nat)
      requires Valid() && pos < 3
      modifies streams, nullAt
      ensures Valid() && Shown(pos) == NullDevice && Only(pos, old(streams[..]), old(nullAt[..]))
    {
      streams[pos] := 0;
      nullAt[pos] := true;
    }

    /** `stream_for_spawn`, and the null device that is looked for before it. */
    method PlaceDescriptor(fd: int, pos: nat) returns (r: nat)
      requires Valid() && pos < 3
      modifies this`placed, streams, nullAt
      ensures Valid()
      ensures match Descriptor(caller, fd, pos)
        case Cannot(e) => r == e
        case Gives(w) =>
          && r == 0 && Shown(pos) == w && placed == (old(placed) || w.Handle?)
          && Only(pos, old(streams[..]), old(nullAt[..]))
    {
      if fd !in caller.fds { return EBADF; }
      match caller.fds[fd]
      case Null => PlaceNull(pos); r := 0;
      case Carries(h) => r := Place(pos, h);
      case Socket(h) =>
        if h == 0 { return ENOTCONN; }
        r := Place(pos, h);
      case Dir(_) => r := EBADF;
    }

    /** No other position has changed, and this one has a handle or the null device and not both. */
    ghost predicate Only(pos: nat, wasStreams: seq<nat>, wasNull: seq<bool>)
      reads this, streams, nullAt
      requires Valid() && pos < 3 && |wasStreams| == |wasNull| == 3
    {
      && streams[..] == wasStreams[pos := streams[pos]] && nullAt[..] == wasNull[pos := nullAt[pos]]
      && (nullAt[pos] ==> streams[pos] == 0)
    }

    /** `seed`: the three positions as the caller's own descriptors have them. */
    method Seed() returns (r: nat)
      requires Valid() && Holds() && gotFiles == [] && gotDirs == []
      requires !placed && forall pos :: 0 <= pos < 3 ==> streams[pos] == 0 && !nullAt[pos]
      modifies this`placed, streams, nullAt
      ensures Valid() && Holds()
      ensures r == 0 <==> Seeded(caller)
      ensures r == 0 ==> Reflects([])
      ensures r != 0 ==> RefusedFor(caller, [], r)
    {
      var fd := 0;
      while fd < 3
        invariant 0 <= fd <= 3 && Valid() && Holds()
        invariant forall q :: 0 <= q < fd ==>
          Descriptor(caller, q, q) == Gives(Shown(q)) && (nullAt[q] ==> streams[q] == 0)
        invariant forall q :: fd <= q < 3 ==> streams[q] == 0 && !nullAt[q]
        invariant placed <==>
          exists q: nat :: q < fd && Descriptor(caller, q, q).Gives? && Descriptor(caller, q, q).w.Handle?
      {
        ghost var s, n := streams[..], nullAt[..];
        r := PlaceDescriptor(fd, fd);
        if r != 0 {
          assert Descriptor(caller, fd, fd) == Cannot(r);
          return;
        }
        forall q | 0 <= q < 3 && q != fd ensures streams[q] == s[q] && nullAt[q] == n[q] {
          assert streams[..][q] == s[q] && nullAt[..][q] == n[q];
        }
        fd := fd + 1;
      }
      r := 0;
    }

    /** An action that opens a file. */
    method OpenFile(fd: int, got: Opened) returns (r: nat)
      requires Valid() && Holds() && 0 <= fd <= 2 && !got.NullName?
      modifies this`placed, this`filesN, this`gotFiles, streams, nullAt, files
      ensures Valid() && Holds()
      ensures gotFiles == old(gotFiles) + if got.File? && old(filesN) < MAX_OPEN then [got.f] else []
      ensures match Does(caller, Open(fd, got), old(filesN))
        case Fails(e) => r == e
        case Sets(pos, w) =>
          && r == 0 && pos == fd && Shown(pos) == w && placed == (old(placed) || w.Handle?)
          && Only(pos, old(streams[..]), old(nullAt[..]))
        case Silent => false
    {
      if filesN >= MAX_OPEN { return ENOSYS; }
      if got.NoFile? { return got.e; }
      files[filesN] := got.f;
      filesN := filesN + 1;
      gotFiles := gotFiles + [got.f];
      r := Place(fd, got.h);
    }

    /** The directory an action names; one named before is given back. */
    method TakeDir(d: nat)
      requires Valid() && Holds()
      modifies this`where, this`closedDirs, this`gotDirs
      ensures Valid() && Holds() && where == Some(d) && gotDirs == old(gotDirs) + [d]
    {
      if where.Some? { closedDirs := closedDirs + [where.value]; }
      where := Some(d);
      gotDirs := gotDirs + [d];
    }

    /** One file action; what it does to the call, whatever was done before. */
    method Perform(a: Action) returns (r: nat)
      requires Valid() && Holds()
      modifies this`placed, this`filesN, this`gotFiles, this`where, this`closedDirs, this`gotDirs, streams
      modifies nullAt, files
      ensures Valid() && Holds()
      ensures var f := FileOf(a, old(|gotFiles|)); gotFiles == old(gotFiles) + if f.Some? then [f.value.0] else []
      ensures var d := DirOf(caller, a); gotDirs == old(gotDirs) + if d.Some? then [d.value] else []
      ensures match Does(caller, a, old(|gotFiles|))
        case Fails(e) => r == e
        case Sets(pos, w) =>
          && r == 0 && pos < 3 && Shown(pos) == w && placed == (old(placed) || w.Handle?)
          && Only(pos, old(streams[..]), old(nullAt[..]))
        case Silent =>
          && r == 0 && placed == old(placed) && streams[..] == old(streams[..])
          && nullAt[..] == old(nullAt[..])
    {
      match a
      case Dup2(fd, src) =>
        if fd > 2 || fd < 0 { return ENOSYS; }
        r := PlaceDescriptor(src, fd);
      case Open(fd, got) =>
        if fd > 2 || fd < 0 { return ENOSYS; }
        if got.NullName? {
          PlaceNull(fd);
          return 0;
        }
        r := OpenFile(fd, got);
      case Close(fd) => r := if fd > 2 then 0 else ENOSYS;
      case Chdir(dir) =>
        if dir.NoDir? { return dir.e; }
        TakeDir(dir.d);
        r := 0;
      case Fchdir(fd, dir) =>
        if fd !in caller.fds || !caller.fds[fd].Dir? { return EBADF; }
        if dir.NoDir? { return dir.e; }
        TakeDir(dir.d);
        r := 0;
      case Other => r := ENOSYS;
    }

    /** One turn of the loop over the actions. */
    method Turn(a: Action, ghost done: seq<Action>) returns (r: nat)
      requires Valid() && Holds() && Reflects(done)
      modifies this`placed, this`filesN, this`gotFiles, this`where, this`closedDirs, this`gotDirs, streams
      modifies nullAt, files
      ensures Valid() && Holds()
      ensures r == 0 ==> Reflects(done + [a])
      ensures r != 0 ==> Does(caller, a, |Files(done)|) == Fails(r)
      ensures gotFiles == Files(done + [a]) && gotDirs == Dirs(caller, done + [a])
    {
      ghost var s, n := streams[..], nullAt[..];
      forall pos | 0 <= pos < 3 ensures Wants(caller, done, pos, Decode(s[pos], n[pos])) {
        assert Shown(pos) == Decode(s[pos], n[pos]);
      }
      r := Perform(a);
      FilesNext(done, a);
      DirsNext(caller, done, a);
      if r == 0 {
        AcceptedNext(caller, done, a);
        ChoosesNext(caller, done, a);
        forall pos | 0 <= pos < 3
          ensures Wants(caller, done + [a], pos, Shown(pos)) && (nullAt[pos] ==> streams[pos] == 0)
          ensures (streams[pos] != 0 ==> placed)
        {
          var x := Does(caller, a, |Files(done)|);
          if !(x.Sets? && x.pos == pos) {
            assert streams[..][pos] == s[pos] && nullAt[..][pos] == n[pos];
            assert streams[pos] == s[pos] && nullAt[pos] == n[pos];
          }
          WantsNext(caller, done, a, pos, Shown(pos));
        }
      }
    }

    /** The loop over the list, from its tail. */
    method PerformAll(list: seq<Action>) returns (r: nat)
      requires Valid() && Holds() && Reflects([])
      modifies this`placed, this`filesN, this`gotFiles, this`where, this`closedDirs, this`gotDirs, streams
      modifies nullAt, files
      ensures Valid() && Holds()
      ensures r == 0 ==> Reflects(InOrder(list))
      ensures r != 0 ==> RefusedFor(caller, InOrder(list), r) && !Accepted(caller, InOrder(list))
      ensures OpenedSoFar(InOrder(list))
    {
      ghost var actions := InOrder(list);
      var op := |list|;
      r := 0;
      while op > 0
        invariant 0 <= op <= |list| && Valid() && Holds() && Reflects(actions[..|list| - op])
      {
        op := op - 1;
        ghost var i := |list| - 1 - op;
        assert actions[i] == list[op];
        assert actions[..i + 1] == actions[..i] + [list[op]];
        r := Turn(list[op], actions[..i]);
        if r != 0 {
          RefusedAt(caller, actions, i, r);
          return;
        }
      }
      assert actions[..|list|] == actions && Begun(caller, actions, |list|);
    }

    /** What has been opened is what the actions ask for that have been begun. */
    ghost predicate OpenedSoFar(actions: seq<Action>)
      reads this
      requires Valid()
    {
      exists n :: 0 <= n <= |actions| && Begun(caller, actions, n) && gotFiles == Files(actions[..n])
                  && gotDirs == Dirs(caller, actions[..n])
    }

    /** Everything the call opened is given back. */
    method CloseAll()
      requires Valid() && Holds()
      modifies this`closedFiles, this`closedDirs, this`where
      ensures Valid() && closedFiles == gotFiles && closedDirs == gotDirs
    {
      for i := 0 to filesN
        invariant closedFiles == files[..i] && gotFiles == files[..filesN] && where == old(where)
        invariant closedDirs == old(closedDirs)
      {
        closedFiles := closedFiles + [files[i]];
      }
      if where.Some? {
        closedDirs := closedDirs + [where.value];
        where := None;
      } else {
        assert gotDirs == closedDirs;
      }
    }

    /** The stream of a file named as the null device, at each position that was to have the device. */
    method PlaceAtNulls(h: nat, at: seq<bool>) returns (r: nat)
      requires Valid() && Holds() && at == nullAt[..]
      requires forall q :: 0 <= q < 3 && nullAt[q] ==> streams[q] == 0
      modifies this`placed, streams, nullAt
      ensures Valid() && Holds()
      ensures r != 0 ==> r == ENOSYS && exists pos: nat :: pos < 3 && at[pos] && Stream(caller, pos, h).Cannot?
      ensures r == 0 ==> forall pos :: 0 <= pos < 3 ==>
                !nullAt[pos] && if at[pos] then Stream(caller, pos, h) == Gives(Shown(pos))
                    else streams[pos] == old(streams[pos])
      ensures r == 0 ==>
        (placed <==> old(placed) || exists pos: nat :: pos < 3 && at[pos] && h != caller.std[pos] && h != 0)
    {
      var pos := 0;
      r := 0;
      ghost var was := placed;
      while pos < 3
        invariant 0 <= pos <= 3 && Valid() && Holds() && r == 0
        invariant forall q :: 0 <= q < pos ==>
                    !nullAt[q] && if at[q] then Stream(caller, q, h) == Gives(Shown(q))
                        else streams[q] == old(streams[q])
        invariant forall q :: pos <= q < 3 ==> nullAt[q] == at[q] && streams[q] == old(streams[q])
        invariant placed <==> was || exists q: nat :: q < pos && at[q] && h != caller.std[q] && h != 0
      {
        ghost var s, n := streams[..], nullAt[..];
        if at[pos] {
          r := Place(pos, h);
          if r != 0 {
            assert at[pos] && Stream(caller, pos, h).Cannot?;
            return;
          }
        }
        forall q | 0 <= q < 3 && q != pos ensures streams[q] == s[q] && nullAt[q] == n[q] {
          assert streams[..][q] == s[q] && nullAt[..][q] == n[q];
        }
        pos := pos + 1;
      }
    }

    /** A file of that name takes the place of the null device. */
    method FileForNulls(got: Opened, at: seq<bool>, ghost props: Props, ghost actions: seq<Action>) returns (r: nat)
      requires Valid() && Holds() && at == nullAt[..] && filesN < MAX_OPEN && got.File?
      requires Says(caller, actions, streams[..], at) && !props.nulls && (at[0] || at[1] || at[2])
      requires |Files(actions)| == filesN && (placed <==> Chooses(caller, actions))
      requires forall pos :: 0 <= pos < 3 && streams[pos] != 0 ==> placed
      modifies this`placed, this`filesN, this`gotFiles, streams, nullAt, files
      ensures Valid() && Holds() && gotFiles == old(gotFiles) + [got.f]
      ensures r != 0 ==> NullRefused(caller, actions, props, got, r)
      ensures r == 0 ==> Delivers(caller, actions, props, got, streams[..], [false, false, false], placed)
      ensures OpensNull(caller, actions, props)
    {
      ghost var s, chose := streams[..], placed;
      NullPositions(caller, actions, s, at);
      files[filesN] := got.f;
      filesN := filesN + 1;
      gotFiles := gotFiles + [got.f];
      r := PlaceAtNulls(got.h, at);
      if r != 0 {
        FileRefused(caller, actions, props, got, s, at, r);
      } else {
        FileOpened(caller, actions, props, got, s, at, streams[..], [false, false, false], chose, placed);
      }
    }

    /** What the call has come to says what the actions ask for. */
    lemma ReflectsSays(actions: seq<Action>)
      requires Valid() && Reflects(actions)
      ensures Says(caller, actions, streams[..], nullAt[..])
    {
      forall pos | 0 <= pos < 3 ensures Wants(caller, actions, pos, Decode(streams[pos], nullAt[pos])) {
        assert Shown(pos) == Decode(streams[pos], nullAt[pos]);
      }
    }

    /** The null device at the positions that have it: the environment's own where it can, or else a file
        of that name. */
    method NullDevices(props: Props, got: Opened, ghost actions: seq<Action>) returns (r: nat, nulls: seq<bool>)
      requires Valid() && Holds() && Reflects(actions) && !got.NullName?
      modifies this`placed, this`filesN, this`gotFiles, streams, nullAt, files
      ensures Valid() && Holds()
      ensures r != 0 ==> NullRefused(caller, actions, props, got, r)
      ensures r == 0 ==> Delivers(caller, actions, props, got, streams[..], nulls, placed)
      ensures gotFiles == Files(actions) +
                if OpensNull(caller, actions, props) && got.File? && |Files(actions)| < MAX_OPEN then [got.f] else []
      ensures gotDirs == Dirs(caller, actions)
    {
      var at := nullAt[..];
      r, nulls := 0, [false, false, false];
      ReflectsSays(actions);
      if props.nulls || (!at[0] && !at[1] && !at[2]) {
        nulls := at;
        NothingOpened(caller, actions, props, got, streams[..], at, placed);
      } else if filesN >= MAX_OPEN {
        r := ENOSYS;
        FileRefused(caller, actions, props, got, streams[..], at, r);
      } else if got.NoFile? {
        r := got.e;
        FileRefused(caller, actions, props, got, streams[..], at, r);
      } else {
        r := FileForNulls(got, at, props, actions);
      }
    }

    /** The streams, the null devices and the directory the program is started with, or a refusal. What the
        call opened is given back, each once, on every way out. */
    method Run(list: seq<Action>, props: Props, got: Opened) returns (out: Outcome)
      requires Valid() && Holds() && gotFiles == [] && gotDirs == [] && !got.NullName?
      requires !placed && forall pos :: 0 <= pos < 3 ==> streams[pos] == 0 && !nullAt[pos]
      modifies this, streams, nullAt, files
      ensures Valid()
      ensures out.Refused? ==> Refuses(caller, InOrder(list), props, got, out.e)
      ensures out.Asked? ==> Granted(caller, InOrder(list), props, HandleOf(got), out)
      ensures out.Asked? ==> forall e: Errno :: !Refuses(caller, InOrder(list), props, got, e)
      ensures Accepted(caller, InOrder(list)) ==>
        && gotDirs == Dirs(caller, InOrder(list))
        && gotFiles == Files(InOrder(list)) + if OpensNull(caller, InOrder(list), props) && got.File?
                                                 && |Files(InOrder(list))| < MAX_OPEN then [got.f] else []
      ensures !Accepted(caller, InOrder(list)) ==> OpenedSoFar(InOrder(list))
      ensures closedFiles == gotFiles && closedDirs == gotDirs
    {
      ghost var actions := InOrder(list);
      RefusedOnce(caller, actions);
      var r := Seed();
      if r == 0 {
        r := PerformAll(list);
      } else {
        assert actions[..0] == [] && Begun(caller, actions, 0);
      }
      if r != 0 {
        CloseAll();
        return Refused(r);
      }
      var nulls;
      r, nulls := NullDevices(props, got, actions);
      if r == 0 && placed && !props.passing {
        r := ENOSYS;
      }
      if r != 0 {
        CloseAll();
        return Refused(r);
      }
      out := Asked(streams[..], nulls, where);
      GrantedBy(caller, actions, props, got, out, placed);
      CloseAll();
    }
  }
}
