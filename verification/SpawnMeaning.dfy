/**
  What a started program begins with, told by the caller's descriptors and file actions alone: not by the three
  handles, in which zero is inheritance, nor by the order of the list.
*/
module SpawnMeaning {
  import opened Options
  import opened Spawn

  /** What a position of the program leads to. */
  datatype Lead = On(h: nat) | TheNull

  /** Where a descriptor of the caller leads. */
  predicate Leads(c: Caller, fd: int, to: Lead) {
    fd in c.fds && match c.fds[fd]
                   case Carries(h) => to == On(h)
                   case Socket(h) => h != 0 && to == On(h)
                   case Null => to == TheNull
                   case Dir(_) => false
  }

  /** The action is about such a position. */
  predicate About(a: Action, pos: int) { (a.Dup2? || a.Open?) && a.fd == pos }

  /** Where the position leads that an action is about. */
  predicate LeadsBy(c: Caller, a: Action, to: Lead) {
    match a
    case Dup2(_, src) => Leads(c, src, to)
    case Open(_, NullName) => to == TheNull
    case Open(_, File(_, h)) => to == On(h)
    case _ => false
  }

  /** The last action about a position. */
  ghost predicate LastAbout(actions: seq<Action>, pos: nat, i: nat) {
    i < |actions| && About(actions[i], pos) && forall j :: i < j < |actions| ==> !About(actions[j], pos)
  }

  ghost predicate NoneAbout(actions: seq<Action>, pos: int) {
    forall i :: 0 <= i < |actions| ==> !About(actions[i], pos)
  }

  /** Where a position is to lead: as the last action about it says, or as the caller's descriptor does. */
  ghost predicate IsToLead(c: Caller, actions: seq<Action>, pos: nat, to: Lead) {
    || (NoneAbout(actions, pos) && Leads(c, pos, to))
    || exists i :: 0 <= i < |actions| && LastAbout(actions, pos, i) && LeadsBy(c, actions[i], to)
  }

  lemma OneLead(c: Caller, actions: seq<Action>, pos: nat, a: Lead, b: Lead)
    requires IsToLead(c, actions, pos, a) && IsToLead(c, actions, pos, b)
    ensures a == b
  {
    if i, j :| 0 <= i < |actions| && LastAbout(actions, pos, i) && LeadsBy(c, actions[i], a)
               && 0 <= j < |actions| && LastAbout(actions, pos, j) && LeadsBy(c, actions[j], b) {
      assert i == j;
    }
  }

  // --- what the encoding comes to ---

  function LeadOf(c: Caller, pos: nat, w: What): Lead
    requires c.Valid() && pos < 3
  {
    match w
    case Inherit => On(c.std[pos])
    case NullDevice => TheNull
    case Handle(h) => On(h)
  }

  lemma DescriptorLeads(c: Caller, fd: int, pos: nat)
    requires c.Valid() && pos < 3 && Descriptor(c, fd, pos).Gives?
    ensures Leads(c, fd, LeadOf(c, pos, Descriptor(c, fd, pos).w))
  {
  }

  lemma EffectIs(c: Caller, a: Action, files: nat, pos: nat)
    requires c.Valid() && pos < 3 && !Does(c, a, files).Fails?
    ensures About(a, pos) <==> Does(c, a, files).Sets? && Does(c, a, files).pos == pos
    ensures About(a, pos) ==> LeadsBy(c, a, LeadOf(c, pos, Does(c, a, files).w))
  {
    if a.Dup2? && a.fd == pos { DescriptorLeads(c, a.src, pos); }
  }

  lemma WantsLeads(c: Caller, actions: seq<Action>, pos: nat, w: What)
    requires c.Valid() && pos < 3 && Accepted(c, actions) && Wants(c, actions, pos, w)
    ensures IsToLead(c, actions, pos, LeadOf(c, pos, w))
  {
    forall i | 0 <= i < |actions|
      ensures About(actions[i], pos) <==> Effects(c, actions, i).Sets? && Effects(c, actions, i).pos == pos
      ensures About(actions[i], pos) ==> LeadsBy(c, actions[i], LeadOf(c, pos, Effects(c, actions, i).w))
    {
      assert !Effects(c, actions, i).Fails?;
      EffectIs(c, actions[i], |Files(actions[..i])|, pos);
    }
    if i :| Settles(c, actions, pos, i) && Effects(c, actions, i).w == w {
      assert LastAbout(actions, pos, i);
    } else {
      DescriptorLeads(c, pos, pos);
    }
  }

  /** Where a position of the started program leads, by what the environment was asked. */
  function Begins(c: Caller, out: Outcome, pos: nat): Lead
    requires c.Valid() && pos < 3 && out.Asked? && |out.streams| == |out.nulls| == 3
  {
    if out.nulls[pos] then TheNull
    else if out.streams[pos] == 0 then On(c.std[pos])
    else On(out.streams[pos])
  }

  /** The program begins with what is named for each position last. Only where that is the null device, and the
      environment has none of its own, is it the stream of the file of that name. */
  lemma {:induction false} BeginsAsNamed(c: Caller, actions: seq<Action>, props: Props, got: Opened, out: Outcome,
                                         pos: nat)
    requires c.Valid() && pos < 3 && out.Asked? && Granted(c, actions, props, HandleOf(got), out)
    requires forall e: Errno :: !Refuses(c, actions, props, got, e)
    ensures |out.streams| == |out.nulls| == 3
    ensures var to := Begins(c, out, pos);
      || IsToLead(c, actions, pos, to)
      || (IsToLead(c, actions, pos, TheNull) && !props.nulls && to == On(HandleOf(got)))
  {
    RefusedOnce(c, actions);
    forall e: Errno ensures !RefusedFor(c, actions, e) { assert !Refuses(c, actions, props, got, e); }
    assert Faithful(c, actions, props, HandleOf(got), out, pos);
    var w :| Wants(c, actions, pos, w) &&
      Substituted(c, pos, w, props, HandleOf(got)) == Gives(Decode(out.streams[pos], out.nulls[pos]));
    WantsLeads(c, actions, pos, w);
  }

  // --- what makes a list one that cannot be performed ---

  /** A stream can be put at a position if zero does not mean it, or means just it. */
  predicate Placeable(c: Caller, pos: int, to: Lead)
    requires c.Valid() && 0 <= pos < 3
  {
    to == TheNull || to.h != 0 || c.std[pos] == 0
  }

  /** A descriptor leads somewhere that can be said at a position. */
  ghost predicate Sayable(c: Caller, fd: int, pos: int)
    requires c.Valid() && 0 <= pos < 3
  {
    exists to :: Leads(c, fd, to) && Placeable(c, pos, to)
  }

  ghost predicate Performable(c: Caller, a: Action, files: nat)
    requires c.Valid()
  {
    match a
    case Dup2(fd, src) => 0 <= fd < 3 && Sayable(c, src, fd)
    case Open(fd, got) =>
      0 <= fd < 3 && (got.NullName? || (got.File? && files < MAX_OPEN && Placeable(c, fd, On(got.h))))
    case Close(fd) => fd >= 3
    case Chdir(dir) => dir.HasDir?
    case Fchdir(fd, dir) => fd in c.fds && c.fds[fd].Dir? && dir.HasDir?
    case Other => false
  }

  lemma DescriptorGives(c: Caller, fd: int, pos: nat)
    requires c.Valid() && pos < 3
    ensures Descriptor(c, fd, pos).Gives? <==> Sayable(c, fd, pos)
  {
    if Descriptor(c, fd, pos).Gives? {
      DescriptorLeads(c, fd, pos);
      assert Placeable(c, pos, LeadOf(c, pos, Descriptor(c, fd, pos).w));
    }
  }

  lemma FailsExactly(c: Caller, a: Action, files: nat)
    requires c.Valid()
    ensures Does(c, a, files).Fails? <==> !Performable(c, a, files)
  {
    if a.Dup2? && 0 <= a.fd < 3 { DescriptorGives(c, a.src, a.fd); }
  }

  /** A list is accepted exactly when the three descriptors lead somewhere that can be said, and each action can be
      performed. */
  lemma AcceptedExactly(c: Caller, actions: seq<Action>)
    requires c.Valid()
    ensures Accepted(c, actions) <==>
      && Sayable(c, 0, 0) && Sayable(c, 1, 1) && Sayable(c, 2, 2)
      && forall i :: 0 <= i < |actions| ==> Performable(c, actions[i], |Files(actions[..i])|)
  {
    DescriptorGives(c, 0, 0);
    DescriptorGives(c, 1, 1);
    DescriptorGives(c, 2, 2);
    forall i | 0 <= i < |actions|
      ensures Effects(c, actions, i).Fails? <==> !Performable(c, actions[i], |Files(actions[..i])|)
    {
      FailsExactly(c, actions[i], |Files(actions[..i])|);
    }
  }

  // --- what is opened for a list ---

  /** The files that its actions find, for the three positions. */
  function Found(actions: seq<Action>): seq<nat>
    decreases |actions|
  {
    if actions == [] then []
    else
      var a := actions[|actions| - 1];
      Found(actions[..|actions| - 1]) +
      if a.Open? && 0 <= a.fd < 3 && a.got.File? then [a.got.f] else []
  }

  /** The first eight of them are opened. */
  lemma {:induction false} FirstAreOpened(actions: seq<Action>)
    ensures Files(actions) == Found(actions)[..if |Found(actions)| < MAX_OPEN then |Found(actions)| else MAX_OPEN]
    decreases |actions|
  {
    if actions != [] { FirstAreOpened(actions[..|actions| - 1]); }
  }

  /** The action is about where the program is started. */
  predicate Moves(a: Action) { a.Chdir? || a.Fchdir? }

  /** The last action of that kind is for such a directory. */
  ghost predicate MovesLastTo(actions: seq<Action>, d: nat) {
    exists i :: 0 <= i < |actions| && LastMove(actions, i) && actions[i].dir == HasDir(d)
  }

  predicate LastMove(actions: seq<Action>, i: nat) {
    i < |actions| && Moves(actions[i]) && forall j :: i < j < |actions| ==> !Moves(actions[j])
  }

  predicate NoneMoves(actions: seq<Action>) { forall i :: 0 <= i < |actions| ==> !Moves(actions[i]) }

  lemma OneMoreMove(front: seq<Action>, a: Action, d: nat)
    ensures NoneMoves(front + [a]) <==> NoneMoves(front) && !Moves(a)
    ensures MovesLastTo(front + [a], d) <==> if Moves(a) then a.dir == HasDir(d) else MovesLastTo(front, d)
  {
    var all, k := front + [a], |front|;
    assert all[k] == a && forall i :: 0 <= i < k ==> all[i] == front[i];
    if Moves(a) {
      assert LastMove(all, k) && forall i: nat :: i < k ==> !LastMove(all, i);
    } else {
      assert forall i: nat :: LastMove(all, i) <==> LastMove(front, i);
    }
  }

  lemma DirIs(c: Caller, a: Action, files: nat)
    requires c.Valid() && !Does(c, a, files).Fails?
    ensures if Moves(a) then a.dir.HasDir? && DirOf(c, a) == Some(a.dir.d) else DirOf(c, a) == None
  {
  }

  /** The program is started in the directory named last. */
  lemma {:induction false} StartedInTheLast(c: Caller, actions: seq<Action>, d: nat)
    requires c.Valid() && Accepted(c, actions)
    ensures var dirs := Dirs(c, actions);
      && (dirs == [] <==> NoneMoves(actions))
      && (dirs != [] && dirs[|dirs| - 1] == d <==> MovesLastTo(actions, d))
    decreases |actions|
  {
    if actions != [] {
      var k := |actions| - 1;
      var front, a := actions[..k], actions[k];
      assert actions == front + [a];
      AcceptedNext(c, front, a);
      DirsNext(c, front, a);
      DirIs(c, a, |Files(front)|);
      OneMoreMove(front, a, d);
      StartedInTheLast(c, front, d);
    }
  }

  // --- beside a table of the program's own ---

  /** Where a position would lead if each action changed a table that began as the caller's, and took what it
      duplicates from there. */
  ghost predicate InTurn(c: Caller, actions: seq<Action>, pos: int, to: Lead)
    decreases |actions|
  {
    if actions == [] then Leads(c, pos, to)
    else
      var front, a := actions[..|actions| - 1], actions[|actions| - 1];
      if !About(a, pos) then InTurn(c, front, pos, to)
      else if a.Dup2? then InTurn(c, front, a.src, to)
      else LeadsBy(c, a, to)
  }

  lemma {:induction false} InTurnIs(c: Caller, actions: seq<Action>, pos: int, to: Lead)
    ensures NoneAbout(actions, pos) ==>
              (InTurn(c, actions, pos, to) <==> Leads(c, pos, to))
    decreases |actions|
  {
    if actions != [] {
      var k := |actions| - 1;
      assert forall i :: 0 <= i < k ==> actions[..k][i] == actions[i];
      InTurnIs(c, actions[..k], pos, to);
    }
  }

  lemma {:induction false} InTurnBy(c: Caller, actions: seq<Action>, pos: nat, i: nat, to: Lead)
    requires LastAbout(actions, pos, i)
    ensures InTurn(c, actions, pos, to) <==>
            if actions[i].Dup2? then InTurn(c, actions[..i], actions[i].src, to) else LeadsBy(c, actions[i], to)
    decreases |actions|
  {
    var k := |actions| - 1;
    var front := actions[..k];
    if i < k {
      assert !About(actions[k], pos);
      assert front[..i] == actions[..i] && front[i] == actions[i];
      assert LastAbout(front, pos, i);
      InTurnBy(c, front, pos, i, to);
    }
  }

  /** What the last action about a position duplicates had been left as the caller has it. */
  ghost predicate SourceStands(c: Caller, actions: seq<Action>, pos: nat) {
    forall i :: 0 <= i < |actions| && LastAbout(actions, pos, i) && actions[i].Dup2? ==>
      Stands(c, actions[..i], actions[i].src)
  }

  ghost predicate Stands(c: Caller, actions: seq<Action>, src: int) {
    forall to :: InTurn(c, actions, src, to) <==> Leads(c, src, to)
  }

  /** The two agree on a position exactly when that is so, as it is when no action before was about the source. */
  lemma {:induction false} InTurnExactly(c: Caller, actions: seq<Action>, pos: nat)
    ensures (forall to :: IsToLead(c, actions, pos, to) <==> InTurn(c, actions, pos, to)) <==>
            SourceStands(c, actions, pos)
    ensures (forall i :: 0 <= i < |actions| && LastAbout(actions, pos, i) && actions[i].Dup2? ==>
               NoneAbout(actions[..i], actions[i].src)) ==>
              SourceStands(c, actions, pos)
  {
    if NoneAbout(actions, pos) {
      forall to ensures InTurn(c, actions, pos, to) <==> Leads(c, pos, to) { InTurnIs(c, actions, pos, to); }
    } else {
      var i := FindLast(actions, pos, |actions|);
      forall to ensures IsToLead(c, actions, pos, to) <==> LeadsBy(c, actions[i], to) {}
      forall to
        ensures InTurn(c, actions, pos, to) <==>
                if actions[i].Dup2? then InTurn(c, actions[..i], actions[i].src, to) else LeadsBy(c, actions[i], to)
      {
        InTurnBy(c, actions, pos, i, to);
      }
      if actions[i].Dup2? {
        assert SourceStands(c, actions, pos) <==> Stands(c, actions[..i], actions[i].src);
        forall to
          ensures NoneAbout(actions[..i], actions[i].src) ==>
                    (InTurn(c, actions[..i], actions[i].src, to) <==> Leads(c, actions[i].src, to))
        {
          InTurnIs(c, actions[..i], actions[i].src, to);
        }
        if forall to :: IsToLead(c, actions, pos, to) <==> InTurn(c, actions, pos, to) {
          forall to ensures InTurn(c, actions[..i], actions[i].src, to) <==> Leads(c, actions[i].src, to) {
            assert IsToLead(c, actions, pos, to) <==> InTurn(c, actions, pos, to);
          }
        }
      }
    }
  }

  lemma {:induction false} FindLast(actions: seq<Action>, pos: nat, n: nat) returns (i: nat)
    requires n <= |actions| && !NoneAbout(actions, pos)
    requires forall j :: n <= j < |actions| ==> !About(actions[j], pos)
    ensures LastAbout(actions, pos, i)
    decreases n
  {
    if About(actions[n - 1], pos) { i := n - 1; } else { i := FindLast(actions, pos, n - 1); }
  }

  /** Here they do not: two streams are to change places. */
  lemma {:induction false} ChangedPlaces() returns (c: Caller, actions: seq<Action>)
    ensures c.Valid() && Accepted(c, actions)
    ensures IsToLead(c, actions, 1, On(12)) && IsToLead(c, actions, 2, On(11))
    ensures InTurn(c, actions, 1, On(12)) && InTurn(c, actions, 2, On(12)) && !InTurn(c, actions, 2, On(11))
  {
    c := Caller(map[0 := Carries(10), 1 := Carries(11), 2 := Carries(12)], [10, 11, 12]);
    var a, b := Dup2(1, 2), Dup2(2, 1);
    actions := [a, b];
    assert [] + [a] == [a] && [a] + [b] == [a, b];
    AcceptedNext(c, [], a);
    AcceptedNext(c, [a], b);
    assert LastAbout(actions, 1, 0) && LastAbout(actions, 2, 1);
    InTurnBy(c, actions, 1, 0, On(12));
    assert actions[..1] == [a] && actions[..0] == [];
    assert LastAbout([a], 1, 0);
    forall to: Lead ensures InTurn(c, [a], 1, to) <==> Leads(c, 2, to) { InTurnBy(c, [a], 1, 0, to); }
    InTurnBy(c, actions, 2, 1, On(12));
    InTurnBy(c, actions, 2, 1, On(11));
  }
}
