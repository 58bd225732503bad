/**
  Who has to give a resource back: over every interleaving of contexts that take the table's lock,
  change the table, release the lock and close what they let go.
*/
module Ownership {
  import opened Options
  import opened Table

  /** One if the resource is this one. */
  function One(o: Option<Owned>, h: Owned): nat {
    if o == Some(h) then 1 else 0
  }

  /** How many of the descriptions that are referred to own a resource. */
  function Live(descs: seq<Desc>, h: Owned): nat {
    if descs == [] then 0 else LiveOne(descs[0], h) + Live(descs[1..], h)
  }

  function LiveOne(d: Desc, h: Owned): nat {
    if d.refs > 0 then One(OwnedOf(d), h) else 0
  }

  /** How many of the descriptions that have been let go still own it. */
  function Pending(es: seq<Entry>, h: Owned): nat {
    if es == [] then 0 else One(OwnedOf(es[0].d), h) + Pending(es[1..], h)
  }

  /** How often it has been closed. */
  function Closed(cs: seq<Closing>, h: Owned): nat {
    if cs == [] then 0 else (if cs[0].what == h then 1 else 0) + Closed(cs[1..], h)
  }

  /** How often it has been handed over. */
  function Given(gs: seq<Owned>, h: Owned): nat {
    if gs == [] then 0 else (if gs[0] == h then 1 else 0) + Given(gs[1..], h)
  }

  lemma {:induction false} LiveUpdate(descs: seq<Desc>, d: nat, x: Desc, h: Owned)
    requires d < |descs|
    ensures Live(descs[d := x], h) + LiveOne(descs[d], h) == Live(descs, h) + LiveOne(x, h)
  {
    if d == 0 {
      assert descs[d := x][1..] == descs[1..];
    } else {
      assert descs[d := x][1..] == descs[1..][d - 1 := x];
      LiveUpdate(descs[1..], d - 1, x, h);
    }
  }

  lemma {:induction false} PendingAppend(a: seq<Entry>, b: seq<Entry>, h: Owned)
    ensures Pending(a + b, h) == Pending(a, h) + Pending(b, h)
  {
    if a == [] {
      assert a + b == b;
    } else {
      assert (a + b)[1..] == a[1..] + b;
      PendingAppend(a[1..], b, h);
    }
  }

  lemma {:induction false} ClosedAppend(a: seq<Closing>, x: Closing, h: Owned)
    ensures Closed(a + [x], h) == Closed(a, h) + if x.what == h then 1 else 0
  {
    if a != [] {
      assert (a + [x])[1..] == a[1..] + [x];
      ClosedAppend(a[1..], x, h);
    }
  }

  lemma {:induction false} GivenAppend(a: seq<Owned>, x: Owned, h: Owned)
    ensures Given(a + [x], h) == Given(a, h) + if x == h then 1 else 0
  {
    if a != [] {
      assert (a + [x])[1..] == a[1..] + [x];
      GivenAppend(a[1..], x, h);
    }
  }

  lemma {:induction false} PendingRemove(es: seq<Entry>, i: nat, h: Owned)
    requires i < |es|
    ensures Pending(es, h) == Pending(es[..i] + es[i + 1..], h) + One(OwnedOf(es[i].d), h)
  {
    assert es == es[..i] + ([es[i]] + es[i + 1..]);
    PendingAppend(es[..i], [es[i]] + es[i + 1..], h);
    PendingAppend([es[i]], es[i + 1..], h);
    PendingAppend(es[..i], es[i + 1..], h);
  }

  lemma Without<T>(s: seq<T>, i: nat)
    requires i < |s|
    ensures multiset(s) == multiset{s[i]} + multiset(s[..i] + s[i + 1..])
  {
    assert s == s[..i] + ([s[i]] + s[i + 1..]);
  }

  lemma Cancelled<T>(x: multiset<T>, p: multiset<T>, q: multiset<T>)
    requires x + p == x + q
    ensures p == q
  {
    assert p == (x + p) - x && q == (x + q) - x;
  }

  lemma RestPermuted<T>(a: seq<T>, b: seq<T>, i: nat)
    requires a != [] && i < |b| && b[i] == a[0] && multiset(a) == multiset(b)
    ensures multiset(a[1..]) == multiset(b[..i] + b[i + 1..])
  {
    Without(a, 0);
    assert a[..0] + a[1..] == a[1..];
    Without(b, i);
    Cancelled(multiset{a[0]}, multiset(a[1..]), multiset(b[..i] + b[i + 1..]));
  }

  /** What is pending depends on the entries and not on their order. */
  lemma {:induction false} PendingPermuted(a: seq<Entry>, b: seq<Entry>, h: Owned)
    requires multiset(a) == multiset(b)
    ensures Pending(a, h) == Pending(b, h)
    decreases |a|
  {
    if a == [] {
      assert |multiset(b)| == 0;
    } else {
      assert a[0] in multiset(b);
      var i :| 0 <= i < |b| && b[i] == a[0];
      RestPermuted(a, b, i);
      PendingPermuted(a[1..], b[..i] + b[i + 1..], h);
      PendingRemove(b, i, h);
    }
  }

  /** How often the table knows of a resource, wherever it is. */
  function Holdings(s: State, h: Owned): nat {
    Live(s.descs, h) + Pending(s.settling, h) + Closed(s.closed, h)
  }

  lemma {:induction false} CloseOwnedCounts(closed: seq<Closing>, d: Desc, me: nat, h: Owned)
    ensures Closed(CloseOwned(closed, d, me), h) == Closed(closed, h) + One(OwnedOf(d), h)
  {
    if OwnedOf(d).Some? { ClosedAppend(closed, Closing(me, OwnedOf(d).value), h); }
  }

  lemma {:induction false} LetGoMoves(s: State, d: Desc, me: nat, h: Owned)
    ensures var t := LetGo(s, d, me);
            && t.descs == s.descs && t.fds == s.fds
            && Pending(t.settling, h) + Closed(t.closed, h)
               == Pending(s.settling, h) + Closed(s.closed, h) + One(OwnedOf(d), h)
  {
    PendingAppend(s.settling, [Entry(me, d)], h);
    CloseOwnedCounts(s.closed, d, me, h);
  }

  lemma ReleaseConserves(s: State, d: int, me: nat, h: Owned)
    requires |s.descs| == MAX_DESC && (0 <= d < MAX_DESC ==> s.descs[d].refs > 0)
    ensures Holdings(DescReleased(s, d, me), h) == Holdings(s, h)
  {
    if 0 <= d < MAX_DESC {
      var p := s.descs[d].(refs := s.descs[d].refs - 1);
      LiveUpdate(s.descs, d, p, h);
      LiveUpdate(s.descs, d, p.(kind := NoKind, sock := -1, held := NOTHING), h);
      LetGoMoves(s, p, me, h);
      assert OwnedOf(p) == OwnedOf(s.descs[d]);
    }
  }

  lemma NamedIsCounted(s: State, fd: nat)
    requires Consistent(s) && fd < MAX_FD && s.fds[fd].desc >= 0
    ensures s.descs[s.fds[fd].desc].refs > 0
  {
    CountUpdate(s.fds, fd, s.fds[fd], s.fds[fd].desc);
  }

  lemma FdReleaseConserves(s: State, fd: int, me: nat, h: Owned)
    requires Consistent(s)
    ensures Holdings(FdReleased(s, fd, me), h) == Holdings(s, h)
  {
    if 0 <= fd < MAX_FD && s.fds[fd].desc >= 0 {
      NamedIsCounted(s, fd);
      ReleaseConserves(s.(fds := s.fds[fd := Slot(FREE, false)]), s.fds[fd].desc, me, h);
    }
  }

  /** What has to be given back of a resource that is bound: a file, a directory and the end of a channel. A
      stream is borrowed, the null device is none, and a socket is given its slot afterwards. */
  function HandedOver(what: Resource): Option<Owned> {
    if what.kind == File then Some(OwnedFile(what.file))
    else if what.kind == Dir then Some(OwnedDir(what.dir))
    else if what.kind == Channel then Some(OwnedChannel(what.stream))
    else None
  }

  /** What binding takes over from its caller: the resource, or nothing where it fails. */
  function Taken(s: State, fd: int, what: Resource, cloexec: bool, me: nat): Option<Owned>
    requires |s.descs| == MAX_DESC && |s.fds| == MAX_FD
  {
    if Bound(s, fd, what, cloexec, me).1 < 0 then None else HandedOver(what)
  }

  /** What a new description owns is what was handed over. */
  lemma MadeOwns(what: Resource)
    ensures OwnedOf(Made(what)) == HandedOver(what)
  {
  }

  lemma BindConserves(s: State, fd: int, what: Resource, cloexec: bool, me: nat, h: Owned)
    requires Consistent(s)
    ensures Holdings(Bound(s, fd, what, cloexec, me).0, h) == Holdings(s, h) + One(Taken(s, fd, what, cloexec, me), h)
  {
    var d := FirstFree(s.descs, 0);
    if 0 <= fd < MAX_FD && d < MAX_DESC {
      var p := Made(what);
      MadeOwns(what);
      LiveUpdate(s.descs, d, p, h);
      if s.fds[fd].desc >= 0 { NamedIsCounted(s, fd); }
      ReleaseConserves(s.(descs := s.descs[d := p]), s.fds[fd].desc, me, h);
    }
  }

  lemma StillCounted(s: State, fd: nat, n: nat, me: nat)
    requires Consistent(s) && fd < MAX_FD && n < MAX_FD && fd != n && s.fds[fd].desc >= 0
    ensures var d := s.fds[fd].desc;
            DescReleased(s, s.fds[n].desc, me).descs[d].refs > 0
  {
    var d := s.fds[fd].desc;
    NamedIsCounted(s, fd);
    if s.fds[n].desc == d {
      if fd < n { CountTwo(s.fds, fd, n, d); } else { CountTwo(s.fds, n, fd, d); }
    }
  }

  lemma OneMoreReference(s: State, d: nat, fds: seq<Slot>, h: Owned)
    requires d < |s.descs| && s.descs[d].refs > 0
    ensures Holdings(s.(descs := s.descs[d := s.descs[d].(refs := s.descs[d].refs + 1)], fds := fds), h) ==
        Holdings(s, h)
  {
    LiveUpdate(s.descs, d, s.descs[d].(refs := s.descs[d].refs + 1), h);
  }

  lemma DupOntoConserves(s: State, fd: nat, n: nat, cloexec: bool, me: nat, h: Owned)
    requires Consistent(s) && fd < MAX_FD && n < MAX_FD && fd != n && s.fds[fd].desc >= 0
    ensures Holdings(DupOnto(s, fd, n, cloexec, me), h) == Holdings(s, h)
  {
    if s.fds[n].desc >= 0 { NamedIsCounted(s, n); }
    ReleaseConserves(s, s.fds[n].desc, me, h);
    StillCounted(s, fd, n, me);
    var u, d := DescReleased(s, s.fds[n].desc, me), s.fds[fd].desc;
    OneMoreReference(u, d, u.fds[n := Slot(d, cloexec)], h);
  }

  lemma DupConserves(s: State, fd: int, newfd: int, cloexec: bool, me: nat, h: Owned)
    requires Consistent(s)
    ensures Holdings(Duplicated(s, fd, newfd, cloexec, me).0, h) == Holdings(s, h)
  {
    var n := Duplicated(s, fd, newfd, cloexec, me).1;
    if 0 <= fd < MAX_FD && s.fds[fd].desc >= 0 && 0 <= n < MAX_FD && n != fd {
      DupOntoConserves(s, fd, n, cloexec, me, h);
    }
  }

  lemma AttachConserves(s: State, fd: nat, sock: nat, h: Owned)
    requires Consistent(s) && fd < MAX_FD && s.fds[fd].desc >= 0
    requires s.descs[s.fds[fd].desc].kind == Socket && s.descs[s.fds[fd].desc].sock < 0
    ensures Consistent(Attached(s, fd, sock))
    ensures Holdings(Attached(s, fd, sock), h) == Holdings(s, h) + One(Some(OwnedSocket(sock)), h)
  {
    var d := s.fds[fd].desc;
    NamedIsCounted(s, fd);
    LiveUpdate(s.descs, d, s.descs[d].(sock := sock), h);
  }

  lemma UseConsistent(s: State, fd: nat, held: Held)
    requires Consistent(s) && fd < MAX_FD && s.fds[fd].desc >= 0
    ensures Consistent(Leaves(s, fd, held))
  {
    var d, t := s.fds[fd].desc, Leaves(s, fd, held);
    assert forall e :: 0 <= e < MAX_DESC ==> t.descs[e].refs == s.descs[e].refs && t.descs[e].kind == s.descs[e].kind;
  }

  lemma UseConserves(s: State, fd: nat, held: Held, h: Owned)
    requires Consistent(s) && fd < MAX_FD && s.fds[fd].desc >= 0
    ensures Consistent(Leaves(s, fd, held)) && Holdings(Leaves(s, fd, held), h) == Holdings(s, h)
  {
    UseConsistent(s, fd, held);
    var d := s.fds[fd].desc;
    LiveUpdate(s.descs, d, s.descs[d].(held := held), h);
  }

  lemma {:induction false} CloseAllConsistent(s: State, fd: nat, me: nat)
    requires Consistent(s) && fd <= MAX_FD
    ensures Consistent(AllReleased(s, fd, me))
  {
    if fd > 0 {
      CloseAllConsistent(s, fd - 1, me);
      FdReleaseConsistent(AllReleased(s, fd - 1, me), fd - 1, me);
    }
  }

  lemma {:induction false} CloseAllConserves(s: State, fd: nat, me: nat, h: Owned)
    requires Consistent(s) && fd <= MAX_FD
    ensures Holdings(AllReleased(s, fd, me), h) == Holdings(s, h)
  {
    if fd > 0 {
      CloseAllConserves(s, fd - 1, me, h);
      CloseAllConsistent(s, fd - 1, me);
      FdReleaseConserves(AllReleased(s, fd - 1, me), fd - 1, me, h);
    }
  }

  lemma ReleasedSlot(s: State, fd: nat, me: nat)
    requires |s.descs| == MAX_DESC && |s.fds| == MAX_FD && fd < MAX_FD && s.fds[fd].desc >= FREE
    ensures var t := if s.fds[fd].desc >= 0 then FdReleased(s, fd, me) else s;
            t.fds[fd].desc == FREE && forall i :: 0 <= i < MAX_FD && i != fd ==> t.fds[i] == s.fds[i]
  {
  }

  /** Closing everything leaves no descriptor, and so no description that owns anything. */
  lemma {:induction false} CloseAllEmpties(s: State, fd: nat, me: nat)
    requires Consistent(s) && fd <= MAX_FD
    ensures var t := AllReleased(s, fd, me);
            && (forall i :: 0 <= i < fd ==> t.fds[i].desc == FREE)
            && (forall i :: fd <= i < MAX_FD ==> t.fds[i] == s.fds[i])
  {
    if fd > 0 {
      CloseAllEmpties(s, fd - 1, me);
      CloseAllConsistent(s, fd - 1, me);
      ReleasedSlot(AllReleased(s, fd - 1, me), fd - 1, me);
    }
  }

  // ----- contexts -----

  /** The table, the context that holds its lock, and what contexts that have released the lock
      are still to close. `given` is what was ever handed over to the table. */
  datatype System = System(table: State, holder: Option<nat>, flight: seq<Entry>, given: seq<Owned>)

  datatype Event =
    | Lock(c: nat)
    | Bind(c: nat, fd: int, what: Resource, cloexec: bool)
    | Dup(c: nat, fd: int, newfd: int, cloexec: bool)
    | Attach(c: nat, at: nat, sock: nat)
    | Use(c: nat, at: nat, held: Held)
    | Release(c: nat, fd: int)
    | CloseAll(c: nat)
    | Unlock(c: nat, mine: seq<Entry>, rest: seq<Entry>)   // what `take_settling` took, what it left
    | Close(c: nat, i: nat)                                // the next resource this context closes

  /** A context has left its call: it does not hold the lock and has nothing to close. */
  ghost predicate Outside(s: System, c: nat) {
    s.holder != Some(c) && forall i :: 0 <= i < |s.flight| ==> s.flight[i].owner != c
  }

  ghost predicate Owner(es: seq<Entry>, c: nat) { forall i :: 0 <= i < |es| ==> es[i].owner == c }
  ghost predicate NotOwner(es: seq<Entry>, c: nat) { forall i :: 0 <= i < |es| ==> es[i].owner != c }

  ghost predicate Enabled(s: System, e: Event) {
    && |s.table.fds| == MAX_FD && |s.table.descs| == MAX_DESC
    && match e
    case Lock(c) => s.holder == None && Outside(s, c)
    case Bind(c, _, what, _) => s.holder == Some(c) && what.kind != NoKind
    case Attach(c, fd, sock) =>
      && s.holder == Some(c) && fd < MAX_FD && 0 <= s.table.fds[fd].desc < MAX_DESC
      && var d := s.table.descs[s.table.fds[fd].desc]; d.kind == Socket && d.sock < 0
    case Use(_, fd, _) => fd < MAX_FD && 0 <= s.table.fds[fd].desc < MAX_DESC
    case Unlock(c, mine, rest) =>
      && s.holder == Some(c) && Owner(mine, c) && NotOwner(rest, c)
      && multiset(mine + rest) == multiset(s.table.settling)
    case Close(c, i) => i < |s.flight| && s.flight[i].owner == c
    case _ => s.holder == Some(e.c)
  }

  function Handed(gs: seq<Owned>, o: Option<Owned>): seq<Owned> {
    if o.Some? then gs + [o.value] else gs
  }

  ghost function Apply(s: System, e: Event): System
    requires Enabled(s, e)
  {
    match e
    case Lock(c) => s.(holder := Some(c))
    case Bind(c, fd, what, cloexec) =>
      s.(table := Bound(s.table, fd, what, cloexec, c).0,
          given := Handed(s.given, Taken(s.table, fd, what, cloexec, c)))
    case Dup(c, fd, newfd, cloexec) => s.(table := Duplicated(s.table, fd, newfd, cloexec, c).0)
    case Attach(c, fd, sock) =>
      s.(table := Attached(s.table, fd, sock), given := s.given + [OwnedSocket(sock)])
    case Use(_, fd, held) => s.(table := Leaves(s.table, fd, held))
    case Release(c, fd) => s.(table := FdReleased(s.table, fd, c))
    case CloseAll(c) => s.(table := AllReleased(s.table, MAX_FD, c))
    case Unlock(c, mine, rest) =>
      s.(table := s.table.(settling := rest), holder := None, flight := s.flight + mine)
    case Close(c, i) =>
      s.(table := s.table.(closed := CloseOwned(s.table.closed, s.flight[i].d, c)),
         flight := s.flight[..i] + s.flight[i + 1..])
  }

  /** Nothing is lost and nothing is closed twice: what was given is live, or let go by a context
      that is still inside its call, or closed. */
  ghost predicate Conserved(s: System, h: Owned) {
    Given(s.given, h) == Holdings(s.table, h) + Pending(s.flight, h)
  }

  /** What waits to be closed under the lock belongs to the holder of the lock. */
  ghost predicate Settled(s: System) {
    match s.holder
    case None => s.table.settling == []
    case Some(c) => Owner(s.table.settling, c) && NotOwner(s.flight, c)
  }

  ghost predicate Inv(s: System) {
    Consistent(s.table) && Settled(s) && forall h :: Conserved(s, h)
  }

  lemma LetGoIsMine(s: State, d: Desc, me: nat)
    requires Owner(s.settling, me)
    ensures Owner(LetGo(s, d, me).settling, me)
  {
  }

  lemma OperationsAreMine(s: State, me: nat, d: int)
    requires |s.descs| == MAX_DESC && Owner(s.settling, me)
    ensures Owner(DescReleased(s, d, me).settling, me)
  {
    if 0 <= d < MAX_DESC { LetGoIsMine(s, s.descs[d].(refs := s.descs[d].refs - 1), me); }
  }

  lemma {:induction false} CloseAllIsMine(s: State, fd: nat, me: nat)
    requires |s.descs| == MAX_DESC && |s.fds| == MAX_FD && fd <= MAX_FD && Owner(s.settling, me)
    ensures Owner(AllReleased(s, fd, me).settling, me)
  {
    if fd > 0 {
      CloseAllIsMine(s, fd - 1, me);
      var t := AllReleased(s, fd - 1, me);
      OperationsAreMine(t.(fds := t.fds[fd - 1 := Slot(FREE, false)]), me, t.fds[fd - 1].desc);
    }
  }

  /** A step of the table that takes over a resource, or none. */
  lemma Grown(s: System, z: System, o: Option<Owned>, h: Owned)
    requires Conserved(s, h) && z.flight == s.flight && z.given == Handed(s.given, o)
    requires Holdings(z.table, h) == Holdings(s.table, h) + One(o, h)
    ensures Conserved(z, h)
  {
    if o.Some? { GivenAppend(s.given, o.value, h); }
  }

  lemma TableStepConserves(s: System, e: Event, h: Owned)
    requires Consistent(s.table) && Conserved(s, h) && Enabled(s, e) && !e.Lock? && !e.Unlock? && !e.Close?
    ensures Conserved(Apply(s, e), h)
  {
    var t, o := s.table, None;
    match e {
      case Bind(c, fd, what, cloexec) =>
        BindConserves(t, fd, what, cloexec, c, h);
        o := Taken(t, fd, what, cloexec, c);
      case Dup(c, fd, newfd, cloexec) => DupConserves(t, fd, newfd, cloexec, c, h);
      case Attach(c, fd, sock) =>
        AttachConserves(t, fd, sock, h);
        o := Some(OwnedSocket(sock));
      case Use(_, fd, held) => UseConserves(t, fd, held, h);
      case Release(c, fd) => FdReleaseConserves(t, fd, c, h);
      case CloseAll(c) => CloseAllConserves(t, MAX_FD, c, h);
    }
    Grown(s, Apply(s, e), o, h);
  }

  lemma TableStepConsistent(s: System, e: Event)
    requires Consistent(s.table) && Enabled(s, e) && !e.Lock? && !e.Unlock? && !e.Close?
    ensures Consistent(Apply(s, e).table)
  {
    var t := s.table;
    match e
    case Bind(c, fd, what, cloexec) => BindConsistent(t, fd, what, cloexec, c);
    case Dup(c, fd, newfd, cloexec) => DupConsistent(t, fd, newfd, cloexec, c);
    case Attach(c, fd, sock) => AttachConserves(t, fd, sock, OwnedSocket(sock));
    case Use(_, fd, held) => UseConsistent(t, fd, held);
    case Release(c, fd) => FdReleaseConsistent(t, fd, c);
    case CloseAll(c) => CloseAllConsistent(t, MAX_FD, c);
  }

  lemma TableStepSettled(s: System, e: Event)
    requires Inv(s) && Enabled(s, e) && !e.Lock? && !e.Unlock? && !e.Close?
    ensures Settled(Apply(s, e))
  {
    var t := s.table;
    match e
    case Bind(c, fd, what, cloexec) =>
      var d := FirstFree(t.descs, 0);
      if 0 <= fd < MAX_FD && d < MAX_DESC {
        var p := Made(what);
        OperationsAreMine(t.(descs := t.descs[d := p]), c, t.fds[fd].desc);
      }
    case Dup(c, fd, newfd, cloexec) =>
      var n := Duplicated(t, fd, newfd, cloexec, c).1;
      if 0 <= n < MAX_FD { OperationsAreMine(t, c, t.fds[n].desc); }
    case Attach(c, fd, sock) =>
    case Use(_, _, _) =>
    case Release(c, fd) =>
      if 0 <= fd < MAX_FD { OperationsAreMine(t.(fds := t.fds[fd := Slot(FREE, false)]), c, t.fds[fd].desc); }
    case CloseAll(c) => CloseAllIsMine(t, MAX_FD, c);
  }

  lemma OwnerPermuted(a: seq<Entry>, b: seq<Entry>, c: nat)
    requires multiset(a) == multiset(b) && Owner(b, c)
    ensures Owner(a, c)
  {
    forall i | 0 <= i < |a| ensures a[i].owner == c {
      assert a[i] in multiset(b);
    }
  }

  /** Where every entry is this context's, taking this context's entries takes all. */
  lemma AllTaken(mine: seq<Entry>, rest: seq<Entry>, was: seq<Entry>, c: nat)
    requires NotOwner(rest, c) && Owner(was, c) && multiset(mine + rest) == multiset(was)
    ensures rest == [] && multiset(mine) == multiset(was)
  {
    var all := mine + rest;
    assert rest != [] ==> all[|mine|] == rest[0];
    OwnerPermuted(all, was, c);
    assert all == mine;
  }

  lemma UnlockTakesAll(s: System, e: Event)
    requires Inv(s) && Enabled(s, e) && e.Unlock?
    ensures e.rest == [] && multiset(e.mine) == multiset(s.table.settling)
  {
    AllTaken(e.mine, e.rest, s.table.settling, e.c);
  }

  lemma UnlockConserves(s: System, e: Event, h: Owned)
    requires Inv(s) && Enabled(s, e) && e.Unlock?
    ensures Conserved(Apply(s, e), h)
  {
    assert Conserved(s, h);
    UnlockTakesAll(s, e);
    PendingPermuted(e.mine, s.table.settling, h);
    PendingAppend(s.flight, e.mine, h);
  }

  lemma CloseConserves(s: System, e: Event, h: Owned)
    requires Inv(s) && Enabled(s, e) && e.Close?
    ensures Conserved(Apply(s, e), h)
  {
    assert Conserved(s, h);
    PendingRemove(s.flight, e.i, h);
    CloseOwnedCounts(s.table.closed, s.flight[e.i].d, e.c, h);
  }

  lemma StepConserves(s: System, e: Event, h: Owned)
    requires Inv(s) && Enabled(s, e)
    ensures Conserved(Apply(s, e), h)
  {
    assert Conserved(s, h);
    if e.Lock? {
    } else if e.Unlock? {
      UnlockConserves(s, e, h);
    } else if e.Close? {
      CloseConserves(s, e, h);
    } else {
      TableStepConserves(s, e, h);
    }
  }

  lemma StepKeepsInv(s: System, e: Event)
    requires Inv(s) && Enabled(s, e)
    ensures Inv(Apply(s, e))
  {
    forall h ensures Conserved(Apply(s, e), h) { StepConserves(s, e, h); }
    if e.Unlock? {
      UnlockTakesAll(s, e);
    } else if !e.Lock? && !e.Close? {
      TableStepConsistent(s, e);
      TableStepSettled(s, e);
    }
  }

  /** The table as the program's image holds it before the first descriptor is bound. */
  ghost predicate Init(s: System) {
    && |s.table.fds| == MAX_FD && |s.table.descs| == MAX_DESC
    && (forall i :: 0 <= i < MAX_FD ==> s.table.fds[i].desc == FREE)
    && (forall d :: 0 <= d < MAX_DESC ==> s.table.descs[d].refs == 0 && s.table.descs[d].kind == NoKind)
    && s.table.settling == [] && s.table.closed == [] && s.holder == None && s.flight == [] && s.given == []
  }

  lemma {:induction false} NoneNamed(fds: seq<Slot>, d: nat)
    requires forall i :: 0 <= i < |fds| ==> fds[i].desc == FREE
    ensures Count(fds, d) == 0
  {
    if fds != [] { NoneNamed(fds[1..], d); }
  }

  lemma {:induction false} NoneLive(descs: seq<Desc>, h: Owned)
    requires forall d :: 0 <= d < |descs| ==> descs[d].refs == 0
    ensures Live(descs, h) == 0
  {
    if descs != [] { NoneLive(descs[1..], h); }
  }

  ghost predicate Runs(s: System, events: seq<Event>)
    decreases |events|
  {
    events == [] || (Enabled(s, events[0]) && Runs(Apply(s, events[0]), events[1..]))
  }

  ghost function After(s: System, events: seq<Event>): System
    requires Runs(s, events)
    decreases |events|
  {
    if events == [] then s else After(Apply(s, events[0]), events[1..])
  }

  lemma InitInv(s: System)
    requires Init(s)
    ensures Inv(s)
  {
    forall h ensures Conserved(s, h) { NoneLive(s.table.descs, h); }
    forall d | 0 <= d < MAX_DESC ensures s.table.descs[d].refs == Count(s.table.fds, d) {
      NoneNamed(s.table.fds, d);
    }
  }

  lemma {:induction false} ReachableInv(s: System, events: seq<Event>)
    requires Inv(s) && Runs(s, events)
    ensures Inv(After(s, events))
    decreases |events|
  {
    if events != [] {
      StepKeepsInv(s, events[0]);
      ReachableInv(Apply(s, events[0]), events[1..]);
    }
  }

  /** In every run: a resource is in one place for each time it was handed over; while the lock is
      free nothing waits under it; and once every context has returned from its calls, whatever is
      not live has been closed, as often as it was given and no oftener. */
  lemma {:induction false} ClosedExactlyOnce(s: System, events: seq<Event>, h: Owned)
    requires Init(s) && Runs(s, events)
    ensures var z := After(s, events);
            && Given(z.given, h)
               == Live(z.table.descs, h) + Pending(z.table.settling, h) + Pending(z.flight, h)
                  + Closed(z.table.closed, h)
            && (z.holder == None ==> z.table.settling == [])
            && ((z.holder.Some? ==> Owner(z.table.settling, z.holder.value)))
            && ((forall c :: Outside(z, c)) ==> Given(z.given, h) == Live(z.table.descs, h) + Closed(z.table.closed, h))
  {
    InitInv(s);
    ReachableInv(s, events);
    var z := After(s, events);
    assert Conserved(z, h);
    if forall c :: Outside(z, c) { NobodyInside(z); }
  }

  lemma NobodyInside(z: System)
    requires forall c :: Outside(z, c)
    ensures z.flight == [] && z.holder == None
  {
    var c := if z.flight == [] then 0 else z.flight[0].owner;
    assert Outside(z, c);
    assert z.holder.Some? ==> Outside(z, z.holder.value);
  }
}
