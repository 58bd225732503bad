/**
  A description's last descriptor let go: what is given back for each kind of it, by whom, and whether before the
  lock is released or after.
*/
module LastRelease {
  import opened Options
  import opened Table
  import opened Ownership

  /** The description that a descriptor names. */
  function Named(s: State, fd: nat): Desc
    requires Consistent(s) && fd < MAX_FD && s.fds[fd].desc >= 0
  {
    s.descs[s.fds[fd].desc]
  }

  /** The only descriptor of its description. */
  predicate IsLast(s: State, fd: nat)
    requires Consistent(s)
  {
    fd < MAX_FD && s.fds[fd].desc >= 0 && Named(s, fd).refs == 1
  }

  /** What is given back waits for the unlock, or, where the queue is full, is given back at once. */
  ghost predicate Defers(s: State, t: State, me: nat, d: Desc, what: Owned) {
    if |s.settling| < SETTLING_MAX
    then t.closed == s.closed && t.settling == s.settling + [Entry(me, d.(refs := 0))]
    else t.settling == s.settling && t.closed == s.closed + [Closing(me, what)]
  }

  /** A file, a directory or the end of a channel waits for the unlock; a socket's slot is given back under the
      lock; a stream and the null device are not given back. */
  lemma LastLetGo(s: State, fd: nat, me: nat)
    requires Consistent(s) && IsLast(s, fd)
    ensures var t, d := FdReleased(s, fd, me), Named(s, fd);
      && (d.kind == File ==> Defers(s, t, me, d, OwnedFile(d.file)))
      && (d.kind == Dir ==> Defers(s, t, me, d, OwnedDir(d.dir)))
      && (d.kind == Channel ==> Defers(s, t, me, d, OwnedChannel(d.stream)))
      && (d.kind == Socket ==> t.settling == s.settling)
      && (d.kind == Socket && d.sock >= 0 ==> t.closed == s.closed + [Closing(me, OwnedSocket(d.sock))])
      && (d.kind == Socket && d.sock < 0 ==> t.closed == s.closed)
      && (d.kind == Stream || d.kind == NullDevice ==> t.settling == s.settling && t.closed == s.closed)
  {
  }

  /** The descriptor is free afterwards, and of the description nothing is left. */
  lemma NothingLeft(s: State, fd: nat, me: nat)
    requires Consistent(s) && IsLast(s, fd)
    ensures var t, n := FdReleased(s, fd, me), s.fds[fd].desc;
      && |t.fds| == MAX_FD && |t.descs| == MAX_DESC && t.fds[fd] == Slot(FREE, false)
      && t.descs[n].refs == 0 && t.descs[n].kind == NoKind && t.descs[n].sock < 0 && t.descs[n].held == NOTHING
  {
  }

  /** A descriptor that is not the last of its description: nothing is given back, and nothing waits. */
  lemma OthersHoldIt(s: State, fd: nat, me: nat)
    requires Consistent(s) && fd < MAX_FD && s.fds[fd].desc >= 0 && !IsLast(s, fd)
    ensures var t := FdReleased(s, fd, me); t.settling == s.settling && t.closed == s.closed
  {
    NamedIsCounted(s, fd);
  }

  // --- the whole of a close ---

  /** A context that has just taken the lock and closes the last descriptor of a description. */
  ghost predicate Closes(s: System, c: nat, fd: nat) {
    Inv(s) && s.holder == Some(c) && s.table.settling == [] && IsLast(s.table, fd)
  }

  ghost function Released(s: System, c: nat, fd: nat): System
    requires Closes(s, c, fd)
  {
    Apply(s, Release(c, fd))
  }

  /** What the unlock leaves, whatever it takes in whatever order. */
  lemma AfterUnlock(s: System, c: nat, fd: nat, mine: seq<Entry>, rest: seq<Entry>)
    requires Closes(s, c, fd) && Enabled(Released(s, c, fd), Unlock(c, mine, rest))
    ensures rest == [] && multiset(mine) == multiset(Released(s, c, fd).table.settling)
    ensures |Released(s, c, fd).table.settling| <= 1 ==> mine == Released(s, c, fd).table.settling
  {
    StepKeepsInv(s, Release(c, fd));
    UnlockTakesAll(Released(s, c, fd), Unlock(c, mine, rest));
    OneOrNone(mine, Released(s, c, fd).table.settling);
  }

  lemma OneOrNone(a: seq<Entry>, b: seq<Entry>)
    requires multiset(a) == multiset(b) && |b| <= 1
    ensures a == b
  {
    assert |a| == |multiset(a)| == |multiset(b)| == |b|;
    if |b| == 1 {
      assert b[0] in multiset(b);
      assert b[0] in a;
    }
  }

  /** What has to be given back of a description, by its kind, is this. */
  predicate IsToBeGiven(d: Desc, what: Owned) {
    || (d.kind == File && what == OwnedFile(d.file))
    || (d.kind == Dir && what == OwnedDir(d.dir))
    || (d.kind == Channel && what == OwnedChannel(d.stream))
  }

  /** The release gives nothing back, and neither does the unlock; the context then has one thing to close, and
      closing it gives back that very thing, once. */
  lemma GivenBackAfterTheLock(s: System, c: nat, fd: nat, what: Owned, mine: seq<Entry>, rest: seq<Entry>)
    requires Closes(s, c, fd) && IsToBeGiven(Named(s.table, fd), what)
    requires Enabled(Released(s, c, fd), Unlock(c, mine, rest))
    ensures var t := Apply(Released(s, c, fd), Unlock(c, mine, rest));
      && Released(s, c, fd).table.closed == s.table.closed && t.table.closed == s.table.closed && t.holder == None
      && (forall i: nat :: Enabled(t, Close(c, i)) <==> i == |s.flight|)
      && var z := Apply(t, Close(c, |s.flight|));
         z.table.closed == s.table.closed + [Closing(c, what)] && z.flight == s.flight && Outside(z, c)
  {
    UnlockedWithOne(s, c, fd, what, mine, rest);
    var e := Entry(c, Named(s.table, fd).(refs := 0));
    CloseTheOne(Apply(Released(s, c, fd), Unlock(c, mine, rest)), s.flight, e, c, what);
  }

  lemma UnlockedWithOne(s: System, c: nat, fd: nat, what: Owned, mine: seq<Entry>, rest: seq<Entry>)
    requires Closes(s, c, fd) && IsToBeGiven(Named(s.table, fd), what)
    requires Enabled(Released(s, c, fd), Unlock(c, mine, rest))
    ensures var t := Apply(Released(s, c, fd), Unlock(c, mine, rest));
      && Released(s, c, fd).table.closed == s.table.closed && t.table.closed == s.table.closed && t.holder == None
      && t.flight == s.flight + [Entry(c, Named(s.table, fd).(refs := 0))]
      && |t.table.fds| == MAX_FD && |t.table.descs| == MAX_DESC && NotOwner(s.flight, c)
  {
    LastLetGo(s.table, fd, c);
    AfterUnlock(s, c, fd, mine, rest);
    StepKeepsInv(s, Release(c, fd));
  }

  /** Of the entries one is this context's, the last. */
  lemma CloseTheOne(t: System, f: seq<Entry>, e: Entry, c: nat, what: Owned)
    requires t.flight == f + [e] && e.owner == c && NotOwner(f, c) && IsToBeGiven(e.d, what) && t.holder == None
    requires |t.table.fds| == MAX_FD && |t.table.descs| == MAX_DESC
    ensures forall i: nat :: Enabled(t, Close(c, i)) <==> i == |f|
    ensures var z := Apply(t, Close(c, |f|));
      z.table.closed == t.table.closed + [Closing(c, what)] && z.flight == f && Outside(z, c)
  {
    assert t.flight[..|f|] + t.flight[|f| + 1..] == f;
  }

  /** A socket is given back before the unlock, and a stream and the null device not at all; the context has then
      nothing to close. */
  lemma NothingAfterTheLock(s: System, c: nat, fd: nat, mine: seq<Entry>, rest: seq<Entry>)
    requires Closes(s, c, fd) && Enabled(Released(s, c, fd), Unlock(c, mine, rest))
    requires var k := Named(s.table, fd).kind; k == Socket || k == Stream || k == NullDevice
    ensures var d, t := Named(s.table, fd), Apply(Released(s, c, fd), Unlock(c, mine, rest));
      && t.table.closed == Released(s, c, fd).table.closed && Outside(t, c)
      && t.table.closed == if d.kind == Socket && d.sock >= 0 then s.table.closed + [Closing(c, OwnedSocket(d.sock))]
                           else s.table.closed
  {
    LastLetGo(s.table, fd, c);
    AfterUnlock(s, c, fd, mine, rest);
  }
}
