/**
  The slots of sockets and the descriptors that name them: over every run of the table, which slots are in
  use, by whom, and when each is released.
*/
module SocketSlots {
  import opened Options
  import opened Table
  import opened Ownership

  const MAX_SOCK: nat := 128

  /** The table, and the slots that are in use. */
  datatype Joint = Joint(sys: System, used: set<nat>)

  function Slotted(i: nat): Owned { OwnedSocket(i) }

  ghost function Releases(s: System, e: Event, i: nat): int
    requires Enabled(s, e)
  {
    Closed(Apply(s, e).table.closed, Slotted(i)) - Closed(s.table.closed, Slotted(i))
  }

  /** A description that has just been bound is given a slot that was free. */
  ghost predicate MayStep(j: Joint, e: Event) {
    Enabled(j.sys, e) && (e.Attach? ==> e.sock < MAX_SOCK && e.sock !in j.used)
  }

  /** A slot is in use from when a description has been given it until it is released. */
  ghost function Step(j: Joint, e: Event): Joint
    requires MayStep(j, e)
  {
    var left := set i | i in j.used && Releases(j.sys, e, i) == 0;
    Joint(Apply(j.sys, e), left + if e.Attach? then {e.sock} else {})
  }

  // --- sockets are closed at once ---

  ghost predicate NoSocket(es: seq<Entry>) { forall i :: 0 <= i < |es| ==> es[i].d.kind != Socket }

  lemma {:induction false} NonePending(es: seq<Entry>, i: nat)
    requires NoSocket(es)
    ensures Pending(es, Slotted(i)) == 0
  {
    if es != [] { NonePending(es[1..], i); }
  }

  /** What an operation on the table does to the queue and to what has been closed. */
  ghost predicate Grows(s: State, t: State) { s.closed <= t.closed && (NoSocket(s.settling) ==> NoSocket(t.settling)) }

  lemma LetGoGrows(s: State, d: Desc, me: nat)
    ensures Grows(s, LetGo(s, d, me))
  {
  }

  lemma ReleaseGrows(s: State, d: int, me: nat)
    requires |s.descs| == MAX_DESC
    ensures Grows(s, DescReleased(s, d, me))
  {
    if 0 <= d < MAX_DESC { LetGoGrows(s, s.descs[d].(refs := s.descs[d].refs - 1), me); }
  }

  lemma FdReleaseGrows(s: State, fd: int, me: nat)
    requires |s.descs| == MAX_DESC && |s.fds| == MAX_FD
    ensures Grows(s, FdReleased(s, fd, me))
  {
    if 0 <= fd < MAX_FD { ReleaseGrows(s.(fds := s.fds[fd := Slot(FREE, false)]), s.fds[fd].desc, me); }
  }

  lemma {:induction false} CloseAllGrows(s: State, fd: nat, me: nat)
    requires |s.descs| == MAX_DESC && |s.fds| == MAX_FD && fd <= MAX_FD
    ensures Grows(s, AllReleased(s, fd, me))
  {
    if fd > 0 {
      CloseAllGrows(s, fd - 1, me);
      FdReleaseGrows(AllReleased(s, fd - 1, me), fd - 1, me);
    }
  }

  lemma BindGrows(s: State, fd: int, what: Resource, cloexec: bool, me: nat)
    requires |s.descs| == MAX_DESC && |s.fds| == MAX_FD
    ensures Grows(s, Bound(s, fd, what, cloexec, me).0)
  {
    var d := FirstFree(s.descs, 0);
    if 0 <= fd < MAX_FD && d < MAX_DESC {
      ReleaseGrows(s.(descs := s.descs[d := Made(what)]), s.fds[fd].desc, me);
    }
  }

  lemma DupGrows(s: State, fd: int, newfd: int, cloexec: bool, me: nat)
    requires |s.descs| == MAX_DESC && |s.fds| == MAX_FD
    ensures Grows(s, Duplicated(s, fd, newfd, cloexec, me).0)
  {
    var n := Duplicated(s, fd, newfd, cloexec, me).1;
    if 0 <= n < MAX_FD { ReleaseGrows(s, s.fds[n].desc, me); }
  }

  lemma TableGrows(s: System, e: Event)
    requires Enabled(s, e) && !e.Unlock? && !e.Close?
    ensures Grows(s.table, Apply(s, e).table) && Apply(s, e).flight == s.flight
  {
    match e
    case Lock(_) =>
    case Bind(c, fd, what, cloexec) => BindGrows(s.table, fd, what, cloexec, c);
    case Dup(c, fd, newfd, cloexec) => DupGrows(s.table, fd, newfd, cloexec, c);
    case Attach(_, _, _) =>
    case Use(_, _, _) =>
    case Release(c, fd) => FdReleaseGrows(s.table, fd, c);
    case CloseAll(c) => CloseAllGrows(s.table, MAX_FD, c);
  }

  /** What is taken out of a queue and what is left in it were in it. */
  lemma PartsHaveNone(mine: seq<Entry>, rest: seq<Entry>, was: seq<Entry>)
    requires NoSocket(was) && multiset(mine + rest) == multiset(was)
    ensures NoSocket(mine) && NoSocket(rest)
  {
    forall i | 0 <= i < |mine + rest| ensures (mine + rest)[i].d.kind != Socket {
      assert (mine + rest)[i] in multiset(was);
    }
    assert forall i :: 0 <= i < |mine| ==> mine[i] == (mine + rest)[i];
    assert forall i :: 0 <= i < |rest| ==> rest[i] == (mine + rest)[|mine| + i];
  }

  ghost predicate NoneWaits(s: System) { NoSocket(s.table.settling) && NoSocket(s.flight) }

  lemma StepGrows(s: System, e: Event)
    requires Enabled(s, e) && NoneWaits(s)
    ensures NoneWaits(Apply(s, e)) && s.table.closed <= Apply(s, e).table.closed
  {
    if e.Unlock? {
      PartsHaveNone(e.mine, e.rest, s.table.settling);
    } else if !e.Close? {
      TableGrows(s, e);
    }
  }

  lemma {:induction false} ClosedGrows(a: seq<Closing>, b: seq<Closing>, h: Owned)
    requires a <= b
    ensures Closed(a, h) <= Closed(b, h)
  {
    if a != [] { ClosedGrows(a[1..], b[1..], h); }
  }

  lemma {:induction false} GivenSlot(s: System, e: Event, i: nat)
    requires Enabled(s, e)
    ensures Given(Apply(s, e).given, Slotted(i)) ==
      Given(s.given, Slotted(i)) + if e.Attach? && e.sock == i then 1 else 0
  {
    if e.Attach? { GivenAppend(s.given, OwnedSocket(e.sock), Slotted(i)); }
    if e.Bind? {
      var o := Taken(s.table, e.fd, e.what, e.cloexec, e.c);
      if o.Some? { GivenAppend(s.given, o.value, Slotted(i)); }
    }
  }

  // --- one description for a slot ---

  /** A slot that is in use is that of one description, and of none otherwise; no socket waits to be closed. */
  ghost predicate Tied(j: Joint) {
    && Inv(j.sys) && NoneWaits(j.sys)
    && forall i: nat :: Live(j.sys.table.descs, Slotted(i)) == if i in j.used then 1 else 0
  }

  /** Where a slot is before a step and after. */
  lemma SlotBalance(s: System, e: Event, i: nat)
    requires Inv(s) && NoneWaits(s) && Enabled(s, e)
    ensures var t := Apply(s, e);
      && Releases(s, e, i) >= 0
      && Live(t.table.descs, Slotted(i)) + Releases(s, e, i)
           == Live(s.table.descs, Slotted(i)) + if e.Attach? && e.sock == i then 1 else 0
  {
    var t, h := Apply(s, e), Slotted(i);
    StepKeepsInv(s, e);
    StepGrows(s, e);
    ClosedGrows(s.table.closed, t.table.closed, h);
    GivenSlot(s, e, i);
    assert Conserved(s, h) && Conserved(t, h);
    NonePending(s.table.settling, i);
    NonePending(s.flight, i);
    NonePending(t.table.settling, i);
    NonePending(t.flight, i);
  }

  /** A step releases slots that are in use, each once, and they are free afterwards. */
  lemma ReleasedInUse(j: Joint, e: Event, i: nat)
    requires Tied(j) && MayStep(j, e)
    ensures Releases(j.sys, e, i) == 0 || (Releases(j.sys, e, i) == 1 && i in j.used && i !in Step(j, e).used)
    ensures Live(Apply(j.sys, e).table.descs, Slotted(i)) == if i in Step(j, e).used then 1 else 0
  {
    SlotBalance(j.sys, e, i);
  }

  lemma StepKeepsTied(j: Joint, e: Event)
    requires Tied(j) && MayStep(j, e)
    ensures Tied(Step(j, e))
  {
    StepKeepsInv(j.sys, e);
    StepGrows(j.sys, e);
    forall i: nat ensures Live(Apply(j.sys, e).table.descs, Slotted(i)) == if i in Step(j, e).used then 1 else 0 {
      ReleasedInUse(j, e, i);
    }
  }

  ghost predicate Possible(j: Joint, es: seq<Event>)
    decreases |es|
  {
    es == [] || (MayStep(j, es[0]) && Possible(Step(j, es[0]), es[1..]))
  }

  ghost function Later(j: Joint, es: seq<Event>): Joint
    requires Possible(j, es)
    decreases |es|
  {
    if es == [] then j else Later(Step(j, es[0]), es[1..])
  }

  lemma {:induction false} RunKeepsTied(j: Joint, es: seq<Event>)
    requires Tied(j) && Possible(j, es)
    ensures Tied(Later(j, es))
    decreases |es|
  {
    if es != [] {
      StepKeepsTied(j, es[0]);
      RunKeepsTied(Step(j, es[0]), es[1..]);
    }
  }

  lemma BeginsTied(s: System)
    requires Init(s)
    ensures Tied(Joint(s, {}))
  {
    InitInv(s);
    forall i: nat ensures Live(s.table.descs, Slotted(i)) == 0 { NoneLive(s.table.descs, Slotted(i)); }
  }

  /** After every run a slot is in use exactly when one description that a descriptor names has it, and no two
      have one; and each time a description was given a slot it has been released once since, but for the
      description that has it now. */
  lemma {:induction false} OneDescriptionEach(s: System, es: seq<Event>, i: nat)
    requires Init(s) && Possible(Joint(s, {}), es)
    ensures var t := Later(Joint(s, {}), es);
      && Live(t.sys.table.descs, Slotted(i)) == (if i in t.used then 1 else 0)
      && Given(t.sys.given, Slotted(i)) == Closed(t.sys.table.closed, Slotted(i)) + if i in t.used then 1 else 0
  {
    var t := Later(Joint(s, {}), es);
    BeginsTied(s);
    RunKeepsTied(Joint(s, {}), es);
    assert Conserved(t.sys, Slotted(i));
    NonePending(t.sys.table.settling, i);
    NonePending(t.sys.flight, i);
  }
}
