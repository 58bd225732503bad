/**
  The descriptor table in place: the arrays of `okm_fd.c` and the functions that change them, each
  shown to do to the arrays what its function in `Table` does to the value.
*/
module DescriptorTable {
  import opened Options
  import opened Table
  import Ownership

  class Descriptors {
    const fds: array<Slot>
    const descs: array<Desc>
    const settling: array<Entry>
    var settlingN: nat
    var closed: seq<Closing>     // what has been given back to the environment, in order

    ghost predicate Valid()
      reads this
    {
      fds.Length == MAX_FD && descs.Length == MAX_DESC && settling.Length == SETTLING_MAX && settlingN <= SETTLING_MAX
    }

    ghost function Abs(): State
      requires Valid()
      reads this, fds, descs, settling
    {
      State(fds[..], descs[..], settling[..settlingN], closed)
    }

    constructor ()
      ensures Valid() && fresh(fds) && fresh(descs) && fresh(settling)
      ensures Ownership.Init(Ownership.System(Abs(), None, [], []))
    {
      fds := new Slot[MAX_FD](_ => Slot(FREE, false));
      descs := new Desc[MAX_DESC](_ => Desc(0, NoKind, 0, 0, 0, 0, 0, NOTHING));
      settling := new Entry[SETTLING_MAX](_ => Entry(0, Desc(0, NoKind, 0, 0, 0, 0, 0, NOTHING)));
      settlingN := 0;
      closed := [];
    }

    method CloseOwned(d: Desc, me: nat)
      requires Valid()
      modifies this`closed
      ensures closed == Table.CloseOwned(old(closed), d, me)
    {
      match d.kind
      case File => closed := closed + [Closing(me, OwnedFile(d.file))];
      case Dir => closed := closed + [Closing(me, OwnedDir(d.dir))];
      case Channel => closed := closed + [Closing(me, OwnedChannel(d.stream))];
      case Socket => if d.sock >= 0 { closed := closed + [Closing(me, OwnedSocket(d.sock))]; }
      case _ =>
    }

    method DescAlloc() returns (d: int)
      requires Valid()
      modifies descs
      ensures Valid() && fds[..] == old(fds[..]) && settling[..] == old(settling[..])
      ensures d == -1 <==> FirstFree(old(descs[..]), 0) == MAX_DESC
      ensures d == -1 ==> descs[..] == old(descs[..])
      ensures d != -1 ==>
        d == FirstFree(old(descs[..]), 0) && descs[..] == old(descs[..])[d := old(descs[..])[d].(refs := 1)]
    {
      var i := 0;
      while i < MAX_DESC
        invariant 0 <= i <= MAX_DESC
        invariant FirstFree(descs[..], 0) == FirstFree(descs[..], i)
        invariant descs[..] == old(descs[..])
      {
        if descs[i].refs == 0 {
          descs[i] := descs[i].(refs := 1);
          return i;
        }
        i := i + 1;
      }
      return -1;
    }

    method DescRelease(d: int, me: nat)
      requires Valid()
      modifies this`settlingN, this`closed, descs, settling
      ensures Valid() && Abs() == DescReleased(old(Abs()), d, me)
    {
      if d < 0 || d >= MAX_DESC { return; }
      descs[d] := descs[d].(refs := descs[d].refs - 1);
      if descs[d].refs > 0 { return; }
      var p := descs[d];
      ghost var before := settling[..settlingN];
      if p.kind == Socket {
        CloseOwned(p, me);
      } else if p.kind != Stream && p.kind != NoKind && p.kind != NullDevice {
        if settlingN < SETTLING_MAX {
          settling[settlingN] := Entry(me, p);
          settlingN := settlingN + 1;
          assert settling[..settlingN] == before + [Entry(me, p)];
        } else {
          CloseOwned(p, me);
        }
      }
      descs[d] := p.(kind := NoKind, sock := -1, held := NOTHING);
    }

    method FdAlloc(from: int) returns (r: int)
      requires Valid()
      ensures r == Table.FdAlloc(Abs(), from)
    {
      var i := if from < 0 then 0 else from;
      while i < MAX_FD
        invariant i >= 0 && (from < MAX_FD ==> i <= MAX_FD)
        invariant i <= MAX_FD ==> FirstFd(fds[..], i) == FirstFd(fds[..], if from < 0 then 0 else from)
      {
        if fds[i].desc == FREE { return i; }
        i := i + 1;
      }
      return -EMFILE;
    }

    method FdRelease(fd: int, me: nat)
      requires Valid()
      modifies this`settlingN, this`closed, fds, descs, settling
      ensures Valid() && Abs() == FdReleased(old(Abs()), fd, me)
    {
      if fd < 0 || fd >= MAX_FD { return; }
      var d := fds[fd].desc;
      if d < 0 { return; }
      fds[fd] := Slot(FREE, false);
      DescRelease(d, me);
    }

    method FdBind(fd: int, what: Resource, cloexec: bool, me: nat) returns (r: int)
      requires Valid()
      modifies this`settlingN, this`closed, fds, descs, settling
      ensures Valid() && (Abs(), r) == Bound(old(Abs()), fd, what, cloexec, me)
    {
      if fd < 0 || fd >= MAX_FD { return -EBADF; }
      var d := DescAlloc();
      if d < 0 { return -ENFILE; }
      descs[d] := Made(what);
      assert descs[..] == old(descs[..])[d := Made(what)];
      if fds[fd].desc >= 0 { DescRelease(fds[fd].desc, me); }
      fds[fd] := Slot(d, cloexec);
      return fd;
    }

    method FdDup(fd: int, to: int, cloexec: bool, me: nat) returns (r: int)
      requires Valid() && Consistent(Abs())
      modifies this`settlingN, this`closed, fds, descs, settling
      ensures Valid() && (Abs(), r) == Duplicated(old(Abs()), fd, to, cloexec, me)
    {
      if fd < 0 || fd >= MAX_FD || fds[fd].desc < 0 { return -EBADF; }
      var newfd := to;
      if newfd < 0 {
        newfd := FdAlloc(0);
        if newfd < 0 { return newfd; }
      }
      if newfd >= MAX_FD { return -EBADF; }
      if newfd == fd { return newfd; }
      ShareWith(fd, newfd, cloexec, me);
      return newfd;
    }

    /** One descriptor lets go of what it names and takes up what another names. */
    method ShareWith(fd: nat, newfd: nat, cloexec: bool, me: nat)
      requires Valid() && fd < MAX_FD && newfd < MAX_FD && 0 <= fds[fd].desc < MAX_DESC
      modifies this`settlingN, this`closed, fds, descs, settling
      ensures Valid() && Abs() == DupOnto(old(Abs()), fd, newfd, cloexec, me)
    {
      if fds[newfd].desc >= 0 { DescRelease(fds[newfd].desc, me); }
      var d := fds[fd].desc;
      descs[d] := descs[d].(refs := descs[d].refs + 1);
      fds[newfd] := Slot(d, cloexec);
    }

    /** Takes one entry out of the queue, filling the gap with the last. */
    method DropAt(i: nat)
      requires Valid() && i < settlingN
      modifies this`settlingN, settling
      ensures Valid() && settlingN == old(settlingN) - 1
      ensures settling[..settlingN] == Dropped(old(settling[..settlingN]), i)
    {
      settlingN := settlingN - 1;
      settling[i] := settling[settlingN];
    }

    /** Takes this context's entries out of the queue. */
    method TakeSettling(me: nat) returns (mine: seq<Entry>)
      requires Valid()
      modifies this`settlingN, settling
      ensures Valid()
      ensures Ownership.Owner(mine, me) && Ownership.NotOwner(settling[..settlingN], me)
      ensures multiset(mine + settling[..settlingN]) == multiset(old(settling[..settlingN]))
    {
      mine := [];
      var i: nat := 0;
      ghost var was := settling[..settlingN];
      while i < settlingN
        invariant Valid() && Taking(was, mine, settling[..settlingN], i, me)
        decreases settlingN - i
      {
        ghost var q, m := settling[..settlingN], mine;
        if settling[i].owner != me {
          i := i + 1;
        } else {
          mine := mine + [settling[i]];
          DropAt(i);
          TakesOne(was, m, q, i, me);
        }
      }
    }

    /** `okm_unlock`: the queue is empty afterwards, and each of its entries has been closed once more. */
    method Unlock(me: nat)
      requires Valid() && Ownership.Owner(settling[..settlingN], me)
      modifies this`settlingN, this`closed, settling
      ensures Valid() && settlingN == 0
      ensures forall h :: Ownership.Closed(closed, h)
                          == Ownership.Closed(old(closed), h) + Ownership.Pending(old(settling[..settlingN]), h)
    {
      if settlingN == 0 { return; }
      ghost var was := settling[..settlingN];
      var mine := TakeSettling(me);
      Ownership.AllTaken(mine, settling[..settlingN], was, me);
      forall h ensures Ownership.Pending(mine, h) == Ownership.Pending(was, h) {
        Ownership.PendingPermuted(mine, was, h);
      }
      ghost var c0 := closed;
      for i := 0 to |mine|
        invariant settlingN == 0
        invariant forall h :: Ownership.Closed(closed, h) == Ownership.Closed(c0, h) + Ownership.Pending(mine[..i], h)
      {
        ghost var c1 := closed;
        CloseOwned(mine[i].d, me);
        assert mine[..i + 1] == mine[..i] + [mine[i]];
        forall h ensures Ownership.Closed(closed, h) == Ownership.Closed(c0, h) + Ownership.Pending(mine[..i + 1], h) {
          assert Ownership.Closed(c1, h) == Ownership.Closed(c0, h) + Ownership.Pending(mine[..i], h);
          Ownership.CloseOwnedCounts(c1, mine[i].d, me, h);
          Ownership.PendingAppend(mine[..i], [mine[i]], h);
        }
      }
      assert mine[..|mine|] == mine;
    }

    /** `__okm_close_all_for_exec`, the part of it that has the lock. */
    method CloseAll(me: nat)
      requires Valid()
      modifies this`settlingN, this`closed, fds, descs, settling
      ensures Valid() && Abs() == AllReleased(old(Abs()), MAX_FD, me)
    {
      for fd := 0 to MAX_FD
        invariant Valid() && Abs() == AllReleased(old(Abs()), fd, me)
      {
        if fds[fd].desc >= 0 { FdRelease(fd, me); }
      }
    }
  }

  /** The queue without an entry, the gap filled with the last. */
  function Dropped(q: seq<Entry>, i: nat): (r: seq<Entry>)
    requires i < |q|
    ensures |r| == |q| - 1 && forall j :: 0 <= j < |r| ==> r[j] == if j == i then q[|q| - 1] else q[j]
  {
    var n := |q| - 1;
    if i < n then q[..n][i := q[n]] else q[..n]
  }

  /** Filling the gap with the last entry moves one entry and loses none. */
  lemma DroppedOne(m: seq<Entry>, q: seq<Entry>, i: nat)
    requires i < |q|
    ensures multiset((m + [q[i]]) + Dropped(q, i)) == multiset(m + q)
  {
    var n := |q| - 1;
    assert q == q[..n] + [q[n]];
    if i < n {
      assert q[..n] == q[..i] + [q[i]] + q[i + 1..n];
      assert Dropped(q, i) == q[..i] + [q[n]] + q[i + 1..n];
    }
  }

  /** The queue has been looked through up to an entry: what has been taken is the context's, what has been
      passed is not, and nothing has been lost. */
  ghost predicate Taking(was: seq<Entry>, mine: seq<Entry>, q: seq<Entry>, i: nat, me: nat) {
    && i <= |q| && Ownership.Owner(mine, me) && (forall j :: 0 <= j < i ==> q[j].owner != me)
    && multiset(mine + q) == multiset(was)
  }

  lemma TakesOne(was: seq<Entry>, mine: seq<Entry>, q: seq<Entry>, i: nat, me: nat)
    requires Taking(was, mine, q, i, me) && i < |q| && q[i].owner == me
    ensures Taking(was, mine + [q[i]], Dropped(q, i), i, me)
  {
    DroppedOne(mine, q, i);
  }
}
