/**
  The descriptor table as a program sees it: each descriptor by itself, with what it names and its own flag.
  Which of them share a description, how often it is counted and which entry it lies in are not seen.
*/
module DescriptorView {
  import opened Options
  import opened Table
  import Ownership

  /** What a descriptor names, but for the count, and whether it is closed when a program is started. */
  datatype Shown = Shown(what: Desc, cloexec: bool)

  function Seen(s: State, fd: int): Option<Shown>
    requires |s.fds| == MAX_FD && |s.descs| == MAX_DESC
  {
    if 0 <= fd < MAX_FD && 0 <= s.fds[fd].desc < MAX_DESC
    then Some(Shown(s.descs[s.fds[fd].desc].(refs := 0), s.fds[fd].cloexec))
    else None
  }

  /** A description that two descriptors name is counted twice. */
  lemma CountedTwice(s: State, i: nat, j: nat)
    requires Consistent(s) && i < MAX_FD && j < MAX_FD && i != j && s.fds[i].desc >= 0 && s.fds[j].desc == s.fds[i].desc
    ensures s.descs[s.fds[i].desc].refs >= 2
  {
    if i < j { CountTwo(s.fds, i, j, s.fds[i].desc); } else { CountTwo(s.fds, j, i, s.fds[i].desc); }
  }

  /** Letting one reference go changes no description that another descriptor names, but for its count. */
  lemma OthersAreKept(s: State, fd: nat, i: nat, me: nat)
    requires Consistent(s) && fd < MAX_FD && i < MAX_FD && i != fd && s.fds[i].desc >= 0
    ensures var t := DescReleased(s, s.fds[fd].desc, me);
      t.descs[s.fds[i].desc].(refs := 0) == s.descs[s.fds[i].desc].(refs := 0) && t.fds == s.fds
  {
    if s.fds[fd].desc == s.fds[i].desc { CountedTwice(s, fd, i); }
  }

  /** A release takes one descriptor away, and a program sees nothing else of it. */
  lemma ReleaseShows(s: State, fd: int, me: nat, i: int)
    requires Consistent(s)
    ensures Seen(FdReleased(s, fd, me), i) == if i == fd then None else Seen(s, i)
  {
    if 0 <= fd < MAX_FD && 0 <= i < MAX_FD && i != fd && s.fds[i].desc >= 0 && s.fds[fd].desc >= 0 {
      OthersAreKept(s, fd, i, me);
      ReleaseCommutes(s, fd, Slot(FREE, false), s.fds[fd].desc, me);
    }
  }

  /** The description of a resource, but for the count, before it has been used. */
  function Anew(what: Resource): Desc {
    Desc(0, what.kind, what.flags, what.stream, what.file, what.dir, -1, Held(0, false, false, None, false))
  }

  /** A bind that succeeds shows what was asked for at its descriptor, whatever that named before, and every
      other descriptor as it was; one that fails changes nothing. */
  lemma BindShows(s: State, fd: int, what: Resource, cloexec: bool, me: nat, i: int)
    requires Consistent(s)
    ensures var (t, r) := Bound(s, fd, what, cloexec, me);
      && (r == -EBADF <==> !(0 <= fd < MAX_FD))
      && (r == -ENFILE <==> 0 <= fd < MAX_FD && forall d :: 0 <= d < MAX_DESC ==> s.descs[d].refs != 0)
      && (r == fd || ((r == -EBADF || r == -ENFILE) && t == s))
      && (r == fd && 0 <= fd ==>
            Seen(t, i) == if i == fd then Some(Shown(Anew(what), cloexec)) else Seen(s, i))
  {
    if 0 <= fd < MAX_FD {
      if s.fds[fd].desc >= 0 { Ownership.NamedIsCounted(s, fd); }
      if 0 <= i < MAX_FD && i != fd && s.fds[i].desc >= 0 {
        Ownership.NamedIsCounted(s, i);
        OthersAreKept(s, fd, i, me);
      }
    }
  }

  /** No descriptor is free. */
  ghost predicate AllTaken(s: State)
    requires |s.fds| == MAX_FD
  {
    forall j :: 0 <= j < MAX_FD ==> s.fds[j].desc != FREE
  }

  /** The descriptor found is the lowest from the number on that is free, and none is found only when none is. */
  lemma LowestFrom(s: State, from: int)
    requires |s.fds| == MAX_FD
    ensures var r := FdAlloc(s, from);
      && (r >= 0 ==> r < MAX_FD && from <= r && s.fds[r].desc == FREE)
      && (forall j :: 0 <= j < MAX_FD && from <= j && s.fds[j].desc == FREE ==> 0 <= r <= j)
      && (r < 0 ==> r == -EMFILE)
  {
  }

  lemma DupOntoShows(s: State, fd: nat, n: nat, cloexec: bool, me: nat, i: int)
    requires Consistent(s) && fd < MAX_FD && n < MAX_FD && n != fd && s.fds[fd].desc >= 0
    ensures var t := DupOnto(s, fd, n, cloexec, me);
      && |t.fds| == MAX_FD && |t.descs| == MAX_DESC
      && Seen(t, i) == if i == n then Some(Shown(Seen(s, fd).value.what, cloexec)) else Seen(s, i)
  {
    OthersAreKept(s, n, fd, me);
    if 0 <= i < MAX_FD && i != n && s.fds[i].desc >= 0 { OthersAreKept(s, n, i, me); }
  }

  /** A duplicate that succeeds shows at its descriptor what the first one shows, with a flag of its own, and
      every other descriptor as it was; the lowest free descriptor is taken where none is named. */
  lemma DupShows(s: State, fd: int, newfd: int, cloexec: bool, me: nat, i: int)
    requires Consistent(s)
    ensures var (t, r) := Duplicated(s, fd, newfd, cloexec, me);
      && (r < 0 <==> Seen(s, fd).None? || newfd >= MAX_FD || (newfd < 0 && AllTaken(s)))
      && (r < 0 ==> t == s && (r == -EMFILE <==> Seen(s, fd).Some? && newfd < 0) && (r == -EBADF || r == -EMFILE))
      && (r >= 0 && newfd >= 0 ==> r == newfd)
      && (r >= 0 && newfd < 0 ==> Seen(s, r).None? && forall j :: 0 <= j < r ==> Seen(s, j).Some?)
      && (r >= 0 ==> Seen(t, i) == if i == r && r != fd then Some(Shown(Seen(s, fd).value.what, cloexec))
            else Seen(s, i))
  {
    var (t, r) := Duplicated(s, fd, newfd, cloexec, me);
    if r >= 0 && r != fd { DupOntoShows(s, fd, r, cloexec, me, i); }
  }
}
