/**
  The descriptor table of `okm_fd.c` as a value: descriptors that name descriptions, descriptions
  that are counted, and what a description owned once its last descriptor has gone. What the
  operations do is said here by functions; `DescriptorTable` does it in place.
*/
module Table {
  import opened Options

  const MAX_FD: nat := 1024
  const MAX_DESC: nat := MAX_FD
  const SETTLING_MAX: nat := 32
  const FREE: int := -1
  const EBADF: int := 9
  const EMFILE: int := 24
  const ENFILE: int := 23

  datatype Kind = NoKind | Stream | Channel | File | Dir | Socket | NullDevice

  /** What use has left with a description: a directory's iterator and an entry that was read and not
      delivered, a byte that was read ahead, the end of input that was seen. */
  datatype Held = Held(iter: nat, iterOpen: bool, pending: bool, ahead: Option<nat>, ended: bool)

  const NOTHING: Held := Held(0, false, false, None, false)

  /** An open file description. `file`, `dir`, `stream` and `sock` are what the environment, or
      the table of sockets, knows it by; which of them counts is the kind's. */
  datatype Desc = Desc(refs: int, kind: Kind, flags: nat, stream: nat, file: nat, dir: nat, sock: int, held: Held)

  datatype Slot = Slot(desc: int, cloexec: bool)

  /** Something that has to be given back exactly once. */
  datatype Owned = OwnedFile(file: nat) | OwnedDir(dir: nat) | OwnedChannel(end: nat) | OwnedSocket(sock: int)

  /** A description without descriptors, still to be closed, and the context that has to do it. */
  datatype Entry = Entry(owner: nat, d: Desc)

  /** A resource given back, and the context that did it. */
  datatype Closing = Closing(closer: nat, what: Owned)

  datatype State = State(fds: seq<Slot>, descs: seq<Desc>, settling: seq<Entry>, closed: seq<Closing>)

  /** What a description must give back. A stream is borrowed. */
  function OwnedOf(d: Desc): Option<Owned> {
    match d.kind
    case File => Some(OwnedFile(d.file))
    case Dir => Some(OwnedDir(d.dir))
    case Channel => Some(OwnedChannel(d.stream))
    case Socket => if d.sock >= 0 then Some(OwnedSocket(d.sock)) else None
    case _ => None
  }

  // ----- the operations -----

  /** `close_owned` */
  function CloseOwned(closed: seq<Closing>, d: Desc, me: nat): seq<Closing> {
    if OwnedOf(d).Some? then closed + [Closing(me, OwnedOf(d).value)] else closed
  }

  /** The part of `desc_release` that decides when a description's resource is closed. */
  function LetGo(s: State, d: Desc, me: nat): State {
    if d.kind == Socket then s.(closed := CloseOwned(s.closed, d, me))
    else if d.kind == Stream || d.kind == NoKind || d.kind == NullDevice then s
    else if |s.settling| < SETTLING_MAX then s.(settling := s.settling + [Entry(me, d)])
    else s.(closed := CloseOwned(s.closed, d, me))
  }

  /** `desc_release` */
  function DescReleased(s: State, d: int, me: nat): State
    requires |s.descs| == MAX_DESC
  {
    if d < 0 || d >= MAX_DESC then s
    else
      var p := s.descs[d].(refs := s.descs[d].refs - 1);
      if p.refs > 0 then s.(descs := s.descs[d := p])
      else
        var t := LetGo(s, p, me);
        t.(descs := t.descs[d := p.(kind := NoKind, sock := -1, held := NOTHING)])
  }

  /** `okm_fd_release` */
  function FdReleased(s: State, fd: int, me: nat): State
    requires |s.descs| == MAX_DESC && |s.fds| == MAX_FD
  {
    if fd < 0 || fd >= MAX_FD || s.fds[fd].desc < 0 then s
    else DescReleased(s.(fds := s.fds[fd := Slot(FREE, false)]), s.fds[fd].desc, me)
  }

  /** The first description nobody refers to, at or after a place; `MAX_DESC` where there is none. */
  function FirstFree(descs: seq<Desc>, from: nat): (d: nat)
    requires from <= |descs|
    ensures from <= d <= |descs| && (d < |descs| ==> descs[d].refs == 0)
    ensures forall i :: from <= i < d ==> descs[i].refs != 0
    decreases |descs| - from
  {
    if from == |descs| || descs[from].refs == 0 then from else FirstFree(descs, from + 1)
  }

  /** The lowest free descriptor, at or after a place; `MAX_FD` where there is none. */
  function FirstFd(fds: seq<Slot>, from: nat): (i: nat)
    requires from <= |fds|
    ensures from <= i <= |fds| && (i < |fds| ==> fds[i].desc == FREE)
    ensures forall j :: from <= j < i ==> fds[j].desc != FREE
    decreases |fds| - from
  {
    if from == |fds| || fds[from].desc == FREE then from else FirstFd(fds, from + 1)
  }

  function FdAlloc(s: State, from: int): int
    requires |s.fds| == MAX_FD
  {
    var start := if from < 0 then 0 else from;
    if start >= MAX_FD || FirstFd(s.fds, start) == MAX_FD then -EMFILE else FirstFd(s.fds, start)
  }

  /** What a descriptor is bound to. */
  datatype Resource = Resource(kind: Kind, flags: nat, stream: nat, file: nat, dir: nat)

  /** The description of it, as yet of one descriptor and unused. */
  function Made(what: Resource): Desc {
    Desc(1, what.kind, what.flags, what.stream, what.file, what.dir, -1, NOTHING)
  }

  /** `okm_fd_bind` */
  function Bound(s: State, fd: int, what: Resource, cloexec: bool, me: nat): (State, int)
    requires |s.descs| == MAX_DESC && |s.fds| == MAX_FD
  {
    if fd < 0 || fd >= MAX_FD then (s, -EBADF)
    else
      var d := FirstFree(s.descs, 0);
      if d == MAX_DESC then (s, -ENFILE)
      else
        var p := Made(what);
        var t := DescReleased(s.(descs := s.descs[d := p]), s.fds[fd].desc, me);
        (t.(fds := t.fds[fd := Slot(d, cloexec)]), fd)
  }

  /** The part of `okm_fd_dup` that changes the table: one descriptor lets go of what it named and
      takes up what another names. */
  function DupOnto(s: State, fd: nat, n: nat, cloexec: bool, me: nat): State
    requires |s.descs| == MAX_DESC && |s.fds| == MAX_FD && fd < MAX_FD && n < MAX_FD
    requires 0 <= s.fds[fd].desc < MAX_DESC
  {
    var d := s.fds[fd].desc;
    var t := DescReleased(s, s.fds[n].desc, me);
    t.(descs := t.descs[d := t.descs[d].(refs := t.descs[d].refs + 1)], fds := t.fds[n := Slot(d, cloexec)])
  }

  /** `okm_fd_dup` */
  function Duplicated(s: State, fd: int, newfd: int, cloexec: bool, me: nat): (State, int)
    requires |s.descs| == MAX_DESC && |s.fds| == MAX_FD
  {
    if fd < 0 || fd >= MAX_FD || s.fds[fd].desc < 0 || s.fds[fd].desc >= MAX_DESC then (s, -EBADF)
    else
      var n := if newfd < 0 then FdAlloc(s, 0) else newfd;
      if n < 0 then (s, n)
      else if n >= MAX_FD then (s, -EBADF)
      else if n == fd then (s, n)
      else (DupOnto(s, fd, n, cloexec, me), n)
  }

  /** `okm_sock_open` and `adopt` give the description they have just bound its slot. */
  function Attached(s: State, fd: nat, sock: int): State
    requires |s.fds| == MAX_FD && |s.descs| == MAX_DESC && fd < MAX_FD && 0 <= s.fds[fd].desc < MAX_DESC
  {
    var d := s.fds[fd].desc;
    s.(descs := s.descs[d := s.descs[d].(sock := sock)])
  }

  /** Reads, enumeration and readiness enquiries leave something with the description they use. */
  function Leaves(s: State, fd: nat, held: Held): State
    requires |s.fds| == MAX_FD && |s.descs| == MAX_DESC && fd < MAX_FD && 0 <= s.fds[fd].desc < MAX_DESC
  {
    var d := s.fds[fd].desc;
    s.(descs := s.descs[d := s.descs[d].(held := held)])
  }

  /** The loop of `__okm_close_all_for_exec`, up to a descriptor. */
  function AllReleased(s: State, fd: nat, me: nat): (r: State)
    requires |s.descs| == MAX_DESC && |s.fds| == MAX_FD && fd <= MAX_FD
    ensures |r.descs| == MAX_DESC && |r.fds| == MAX_FD
  {
    if fd == 0 then s
    else
      var t := AllReleased(s, fd - 1, me);
      if t.fds[fd - 1].desc >= 0 then FdReleased(t, fd - 1, me) else t
  }

  // ----- counting -----

  /** How many descriptors name a description. */
  function Count(fds: seq<Slot>, d: int): nat {
    if fds == [] then 0 else (if fds[0].desc == d then 1 else 0) + Count(fds[1..], d)
  }

  lemma {:induction false} CountUpdate(fds: seq<Slot>, i: nat, x: Slot, d: int)
    requires i < |fds|
    ensures Count(fds[i := x], d) ==
              Count(fds, d) - (if fds[i].desc == d then 1 else 0) + (if x.desc == d then 1 else 0)
    ensures fds[i].desc == d ==> Count(fds, d) > 0
  {
    if i == 0 {
      assert fds[i := x][1..] == fds[1..];
    } else {
      assert fds[i := x][1..] == fds[1..][i - 1 := x];
      CountUpdate(fds[1..], i - 1, x, d);
    }
  }

  lemma {:induction false} CountTwo(fds: seq<Slot>, i: nat, j: nat, d: int)
    requires i < j < |fds| && fds[i].desc == d && fds[j].desc == d
    ensures Count(fds, d) >= 2
  {
    if i == 0 {
      CountUpdate(fds[1..], j - 1, fds[j], d);
    } else {
      CountTwo(fds[1..], i - 1, j - 1, d);
    }
  }

  /** The table is consistent: a description is counted by the descriptors that name it, and one
      that nobody names owns nothing. */
  ghost predicate Consistent(s: State) {
    && |s.fds| == MAX_FD && |s.descs| == MAX_DESC
    && (forall i :: 0 <= i < MAX_FD ==> FREE <= s.fds[i].desc < MAX_DESC)
    && (forall d :: 0 <= d < MAX_DESC ==> s.descs[d].refs == Count(s.fds, d))
    && (forall d :: 0 <= d < MAX_DESC && s.descs[d].refs == 0 ==> s.descs[d].kind == NoKind)
  }

  /** A release takes one from the count of one description, which then, if it was the last, is nobody's. */
  lemma ReleaseLeaves(s: State, d: nat, me: nat)
    requires |s.descs| == MAX_DESC && d < MAX_DESC
    ensures var t := DescReleased(s, d, me);
            && t.fds == s.fds && |t.descs| == MAX_DESC
            && (forall e :: 0 <= e < MAX_DESC && e != d ==> t.descs[e] == s.descs[e])
            && t.descs[d].refs == s.descs[d].refs - 1
            && if s.descs[d].refs > 1 then t.descs[d].(refs := s.descs[d].refs) == s.descs[d]
                else t.descs[d].kind == NoKind
  {
  }

  /** A table that is consistent but that the descriptor `fd`, just released, was still counted. */
  lemma ReleaseStep(s: State, fd: nat, x: Slot, me: nat)
    requires Consistent(s) && fd < MAX_FD && x.desc == FREE
    ensures Consistent(DescReleased(s.(fds := s.fds[fd := x]), s.fds[fd].desc, me))
    ensures var t := DescReleased(s.(fds := s.fds[fd := x]), s.fds[fd].desc, me);
            t.fds == s.fds[fd := x]
            && forall d :: 0 <= d < MAX_DESC && t.descs[d].refs > 0 ==>
                t.descs[d].(refs := s.descs[d].refs) == s.descs[d]
  {
    var u, n := s.(fds := s.fds[fd := x]), s.fds[fd].desc;
    forall d | 0 <= d < MAX_DESC ensures Count(u.fds, d) == s.descs[d].refs - if n == d then 1 else 0 {
      CountUpdate(s.fds, fd, x, d);
    }
    if n >= 0 {
      ReleaseLeaves(u, n, me);
      Recounted(u, DescReleased(u, n, me), n);
    } else {
      Recounted(u, u, n);
    }
  }

  lemma Recounted(u: State, t: State, n: int)
    requires |u.fds| == MAX_FD && |u.descs| == |t.descs| == MAX_DESC && t.fds == u.fds && n < MAX_DESC
    requires forall i :: 0 <= i < MAX_FD ==> FREE <= u.fds[i].desc < MAX_DESC
    requires forall d :: 0 <= d < MAX_DESC ==> Count(u.fds, d) == u.descs[d].refs - if n == d then 1 else 0
    requires forall d :: 0 <= d < MAX_DESC && u.descs[d].refs == 0 ==> u.descs[d].kind == NoKind
    requires forall d :: 0 <= d < MAX_DESC && d != n ==> t.descs[d] == u.descs[d]
    requires n >= 0 ==> t.descs[n].refs == u.descs[n].refs - 1
    requires n >= 0 && u.descs[n].refs <= 1 ==> t.descs[n].kind == NoKind
    requires n >= 0 && u.descs[n].refs > 1 ==> t.descs[n].(refs := u.descs[n].refs) == u.descs[n]
    ensures Consistent(t)
    ensures forall d :: 0 <= d < MAX_DESC && t.descs[d].refs > 0 ==> t.descs[d].(refs := u.descs[d].refs) == u.descs[d]
  {
    assert forall d :: 0 <= d < MAX_DESC ==> t.descs[d].refs == u.descs[d].refs - if n == d then 1 else 0;
  }

  lemma FdReleaseConsistent(s: State, fd: int, me: nat)
    requires Consistent(s)
    ensures Consistent(FdReleased(s, fd, me))
  {
    if 0 <= fd < MAX_FD { ReleaseStep(s, fd, Slot(FREE, false), me); }
  }

  /** Releasing a descriptor's description before or after the descriptor itself is forgotten is
      the same. */
  lemma ReleaseCommutes(s: State, fd: nat, x: Slot, d: int, me: nat)
    requires |s.fds| == MAX_FD && |s.descs| == MAX_DESC && fd < MAX_FD
    ensures DescReleased(s.(fds := s.fds[fd := x]), d, me) ==
              var t := DescReleased(s, d, me); t.(fds := t.fds[fd := x])
  {
  }

  /** A free descriptor takes up a description, which has one reference more for it. */
  lemma TakesUp(u: State, fd: nat, d: nat, p: Desc, cloexec: bool)
    requires Consistent(u) && fd < MAX_FD && u.fds[fd].desc == FREE && d < MAX_DESC && p.refs == u.descs[d].refs + 1
    ensures Consistent(u.(descs := u.descs[d := p], fds := u.fds[fd := Slot(d, cloexec)]))
  {
    var x := Slot(d, cloexec);
    var descs, fds := u.descs[d := p], u.fds[fd := x];
    forall e | 0 <= e < MAX_DESC ensures descs[e].refs == Count(fds, e) {
      CountUpdate(u.fds, fd, x, e);
    }
  }

  /** Taking up one description and letting another go are the same in either order. */
  lemma BindCommutes(s: State, fds: seq<Slot>, d: nat, p: Desc, n: int, me: nat)
    requires |s.descs| == MAX_DESC && d < MAX_DESC && n != d
    ensures var t := DescReleased(s.(descs := s.descs[d := p]), n, me);
            t.fds == s.fds && t.descs == DescReleased(s.(fds := fds), n, me).descs[d := p]
  {
  }

  lemma BindConsistent(s: State, fd: int, what: Resource, cloexec: bool, me: nat)
    requires Consistent(s) && what.kind != NoKind
    ensures Consistent(Bound(s, fd, what, cloexec, me).0)
  {
    var d := FirstFree(s.descs, 0);
    if 0 <= fd < MAX_FD && d < MAX_DESC {
      var gone, n := Slot(FREE, false), s.fds[fd].desc;
      // Releasing what the descriptor named first, and then binding, comes to the same.
      var u := DescReleased(s.(fds := s.fds[fd := gone]), n, me);
      CountUpdate(s.fds, fd, gone, n);
      BindCommutes(s, s.fds[fd := gone], d, Made(what), n, me);
      ReleaseStep(s, fd, gone, me);
      ReleaseKeepsOthers(s.(fds := s.fds[fd := gone]), n, d, me);
      TakesUp(u, fd, d, Made(what), cloexec);
      SameTable(Bound(s, fd, what, cloexec, me).0,
          u.(descs := u.descs[d := Made(what)], fds := u.fds[fd := Slot(d, cloexec)]));
    }
  }

  lemma ReleaseKeepsOthers(s: State, n: int, d: nat, me: nat)
    requires |s.descs| == MAX_DESC && d < MAX_DESC && n != d
    ensures DescReleased(s, n, me).descs[d] == s.descs[d]
  {
  }

  /** What waits to be closed and what has been closed do not matter to the counts. */
  lemma SameTable(s: State, t: State)
    requires s.fds == t.fds && s.descs == t.descs && Consistent(t)
    ensures Consistent(s)
  {
  }

  lemma DupOntoConsistent(s: State, fd: nat, n: nat, cloexec: bool, me: nat)
    requires Consistent(s) && fd < MAX_FD && n < MAX_FD && fd != n && s.fds[fd].desc >= 0
    ensures Consistent(DupOnto(s, fd, n, cloexec, me))
  {
    var d, gone := s.fds[fd].desc, Slot(FREE, false);
    var u := DescReleased(s.(fds := s.fds[n := gone]), s.fds[n].desc, me);
    var p := u.descs[d].(refs := u.descs[d].refs + 1);
    ReleaseStep(s, n, gone, me);
    ReleaseCommutes(s, n, gone, s.fds[n].desc, me);
    TakesUp(u, n, d, p, cloexec);
    SameTable(DupOnto(s, fd, n, cloexec, me), u.(descs := u.descs[d := p], fds := u.fds[n := Slot(d, cloexec)]));
  }

  lemma DupConsistent(s: State, fd: int, newfd: int, cloexec: bool, me: nat)
    requires Consistent(s)
    ensures Consistent(Duplicated(s, fd, newfd, cloexec, me).0)
  {
    var n := Duplicated(s, fd, newfd, cloexec, me).1;
    if 0 <= fd < MAX_FD && s.fds[fd].desc >= 0 && 0 <= n < MAX_FD && n != fd {
      DupOntoConsistent(s, fd, n, cloexec, me);
    }
  }

  /** Duplicating onto a descriptor that already names the same description lets nothing go. */
  lemma DupOntoAlias(s: State, fd: nat, newfd: nat, cloexec: bool, me: nat)
    requires Consistent(s) && fd < MAX_FD && newfd < MAX_FD && fd != newfd
    requires s.fds[fd].desc >= 0 && s.fds[newfd].desc == s.fds[fd].desc
    ensures var t := Duplicated(s, fd, newfd, cloexec, me).0;
            t.descs == s.descs && t.settling == s.settling && t.closed == s.closed
  {
    var d := s.fds[fd].desc;
    if fd < newfd { CountTwo(s.fds, fd, newfd, d); } else { CountTwo(s.fds, newfd, fd, d); }
    var t := DescReleased(s, d, me);
    assert t.descs[d := t.descs[d].(refs := t.descs[d].refs + 1)] == s.descs;
  }

  // ----- a description for every descriptor -----

  /** How many descriptors name one of the first `n` descriptions. */
  function Occupied(fds: seq<Slot>, n: nat): nat {
    if fds == [] then 0 else (if 0 <= fds[0].desc < n then 1 else 0) + Occupied(fds[1..], n)
  }

  lemma {:induction false} OccupiedStep(fds: seq<Slot>, n: nat)
    ensures Occupied(fds, n + 1) == Occupied(fds, n) + Count(fds, n)
  {
    if fds != [] { OccupiedStep(fds[1..], n); }
  }

  lemma {:induction false} OccupiedByAll(fds: seq<Slot>, n: nat)
    requires forall d :: 0 <= d < n ==> Count(fds, d) > 0
    ensures Occupied(fds, n) >= n
  {
    if n > 0 {
      OccupiedByAll(fds, n - 1);
      OccupiedStep(fds, n - 1);
    }
  }

  lemma {:induction false} OccupiedBound(fds: seq<Slot>, n: nat, i: nat)
    requires i < |fds| && fds[i].desc < 0
    ensures Occupied(fds, n) < |fds|
  {
    if i > 0 {
      OccupiedBound(fds[1..], n, i - 1);
    } else {
      OccupiedAtMost(fds[1..], n);
    }
  }

  lemma {:induction false} OccupiedAtMost(fds: seq<Slot>, n: nat)
    ensures Occupied(fds, n) <= |fds|
  {
    if fds != [] { OccupiedAtMost(fds[1..], n); }
  }

  /** Binding a free descriptor never fails for want of a description. `okm_sock_open` and
      `adopt` do not look whether it did. */
  lemma FreeDescriptorBinds(s: State, fd: nat, what: Resource, cloexec: bool, me: nat)
    requires Consistent(s) && fd < MAX_FD && s.fds[fd].desc == FREE
    ensures Bound(s, fd, what, cloexec, me).1 == fd
    ensures Bound(s, fd, what, cloexec, me).0.fds[fd].desc == FirstFree(s.descs, 0) < MAX_DESC
  {
    if FirstFree(s.descs, 0) == MAX_DESC {
      OccupiedByAll(s.fds, MAX_DESC);
      OccupiedBound(s.fds, MAX_DESC, fd);
    }
  }
}
