/**
  What a socket's calls answer and leave, told by what the caller can see: the calls made on it and their answers.
*/
module SocketAnswers {
  import opened Options
  import opened Sockets

  // --- one call ---

  /** The calls refuse with exactly these errors, each in its phase and type. */
  predicate Refuses(x: Slot, call: Call, full: bool, e: Error) {
    match e
    case EINVAL =>
      || (call.Bind? && x.phase != New)
      || (call.Listen? && x.typ == Stream && x.phase == Connected)
      || (call.Connect? && x.typ == Stream && x.phase == Listening)
      || (call.Accept? && x.phase != Listening)
    case EISCONN => call.Connect? && x.phase == Connected
    case EOPNOTSUPP => call.Listen? && x.typ == Dgram
    case ENOTCONN => call.Transfer? && x.typ == Stream && x.phase != Connected
    case EMFILE => call.Accept? && x.phase == Listening && !call.fd && (x.pend.Some? || call.got.Some?)
    case ENFILE => call.Accept? && x.phase == Listening && call.fd && full && (x.pend.Some? || call.got.Some?)
    case Environment =>
      || (call.Enquire? && x.phase == Listening && x.pend.None? && call.heard == Failure)
      || (call.Accept? && x.phase == Listening && x.pend.None? && call.got.None?)
      || (call.Listen? && x.typ == Stream && x.phase == New && call.got.None?)
      || (call.Bind? && x.typ == Dgram && x.phase == New && call.got.None?)
      || (call.Connect? && x.phase == New && call.got.None?)
      || (call.Transfer? && x.typ == Dgram && x.phase == New && call.got.None?)
  }

  ghost predicate Full(s: State) { forall j :: 0 <= j < |s.slots| ==> s.slots[j].phase != Free }

  /** The entry that a call names is in use, or the call names none. */
  predicate On(s: State, call: Call) { !call.Socket? && call.i < |s.slots| }

  lemma FullWithout(s: State, i: nat)
    requires i < |s.slots| && s.slots[i].phase != Free
    ensures FirstFree(s.slots[i := s.slots[i].(pend := None)], 0) == |s.slots| <==> Full(s)
  {
    var all := s.slots[i := s.slots[i].(pend := None)];
    var j := FirstFree(all, 0);
    if j < |s.slots| { assert s.slots[j].phase == Free; }
    else {
      forall k | 0 <= k < |s.slots| ensures s.slots[k].phase != Free { assert all[k].phase != Free; }
    }
  }

  lemma AcceptRefused(s: State, i: nat, got: Option<nat>, fd: bool, e: Error)
    requires i < |s.slots| && Fits(s.slots[i]) && Enabled(s, Accept(i, got, fd))
    ensures Do(s, Accept(i, got, fd)).1 == Err(e) <==> Refuses(s.slots[i], Accept(i, got, fd), Full(s), e)
  {
    FullWithout(s, i);
    if s.slots[i].pend.None? {
      assert s.slots[i].(pend := None) == s.slots[i];
      assert s.slots == s.slots[i := s.slots[i]];
    }
  }

  lemma CallRefused(s: State, call: Call, full: bool, e: Error)
    requires Enabled(s, call) && On(s, call) && Fits(s.slots[call.i]) && !call.Accept?
    ensures Do(s, call).1 == Err(e) <==> Refuses(s.slots[call.i], call, full, e)
  {
  }

  lemma RefusedExactly(s: State, call: Call, e: Error)
    requires AllFit(s) && Enabled(s, call) && On(s, call)
    ensures Do(s, call).1 == Err(e) <==> Refuses(s.slots[call.i], call, Full(s), e)
  {
    assert Fits(s.slots[call.i]);
    if call.Accept? {
      AcceptRefused(s, call.i, call.got, call.fd, e);
    } else {
      CallRefused(s, call, Full(s), e);
    }
  }

  /** A new socket is refused where no descriptor is free or else no entry, and gets a free entry otherwise. */
  lemma OpenedExactly(s: State, typ: Type, fd: bool)
    ensures var (t, r) := Do(s, Socket(typ, fd));
      && (r == Err(EMFILE) <==> !fd)
      && (r == Err(ENFILE) <==> fd && Full(s))
      && (r.Err? ==> t == s)
      && (!r.Err? ==>
            && r.Gave? && r.slot < |s.slots| && s.slots[r.slot].phase == Free
            && t == s.(slots := s.slots[r.slot := Slot(New, typ, None, None)]))
  {
  }

  /** A refusal changes nothing, but that a connection which cannot be placed is closed. */
  lemma RefusalLeaves(s: State, call: Call)
    requires AllFit(s) && Enabled(s, call) && On(s, call) && Do(s, call).1.Err?
    ensures !call.Accept? ==> Do(s, call).0 == s
    ensures call.Accept? ==> var t, x, r := Do(s, call).0, s.slots[call.i], Do(s, call).1;
      && t.slots == s.slots[call.i := x.(pend := None)]
      && (r.e == EMFILE || r.e == ENFILE ==>
            t.closed == s.closed + [if x.pend.Some? then x.pend.value else call.got.value])
      && (r.e != EMFILE && r.e != ENFILE ==> t == s)
  {
    assert Fits(s.slots[call.i]);
  }

  /** What a call that succeeds leaves of its own entry. */
  function Leaves(x: Slot, call: Call): Slot
    requires !call.Socket?
  {
    match call
    case Release(_) => x.(phase := Free, obj := None, pend := None)
    case Enquire(_, heard) =>
      if heard.Connection? && x.phase == Listening && x.pend.None? then x.(pend := Some(heard.o)) else x
    case Accept(_, _, _) => x.(pend := None)
    case Listen(_, got) => Slot(Listening, Stream, if x.phase == New then got else x.obj, x.pend)
    case Connect(_, got) =>
      if x.typ == Stream then Slot(Connected, Stream, got, None)
      else Slot(Open, Dgram, if x.phase == New then got else x.obj, None)
    case Transfer(_, got) =>
      if x.typ == Stream then x else Slot(Open, Dgram, if x.phase == New then got else x.obj, None)
    case Bind(_, got) => if x.typ == Stream then Slot(New, Stream, None, None) else Slot(Open, Dgram, got, None)
  }

  lemma SuccessLeaves(s: State, call: Call)
    requires AllFit(s) && Enabled(s, call) && On(s, call) && !Do(s, call).1.Err? && !call.Accept?
    ensures Do(s, call).0.slots == s.slots[call.i := Leaves(s.slots[call.i], call)]
    ensures Do(s, call).1 == if call.Enquire? then Ready(Do(s, call).0.slots[call.i].pend.Some?) else Done
  {
    assert Fits(s.slots[call.i]);
    assert s.slots == s.slots[call.i := s.slots[call.i]];
  }

  /** An accept gives a free entry, connected by the connection an enquiry held or else by the one asked for. */
  lemma AcceptLeaves(s: State, i: nat, got: Option<nat>, fd: bool)
    requires AllFit(s) && Enabled(s, Accept(i, got, fd)) && !Do(s, Accept(i, got, fd)).1.Err?
    ensures var (t, r) := Do(s, Accept(i, got, fd)); var x := s.slots[i];
      && r.Gave? && r.slot < |s.slots| && s.slots[r.slot].phase == Free && r.slot != i
      && t.slots == s.slots[i := x.(pend := None)][r.slot :=
                      Slot(Connected, Stream, if x.pend.Some? then x.pend else got, None)]
      && t.closed == s.closed
  {
    assert Fits(s.slots[i]);
  }

  /** A release gives back the entry's object and then the connection it held. */
  lemma ReleaseCloses(s: State, i: nat)
    requires AllFit(s) && Enabled(s, Release(i))
    ensures var x := s.slots[i];
      && After(s, Release(i)).closed ==
           s.closed + (if x.obj.Some? then [x.obj.value] else []) + if x.pend.Some? then [x.pend.value] else []
  {
    assert Fits(s.slots[i]);
  }

  // --- runs ---

  /** A call that was made, and what it was answered. */
  datatype Event = Event(call: Call, answer: Answer)

  function History(s: State, calls: seq<Call>): seq<Event>
    requires Runs(s, calls)
    decreases |calls|
  {
    if calls == [] then [] else [Event(calls[0], Do(s, calls[0]).1)] + History(After(s, calls[0]), calls[1..])
  }

  /** What may have happened to a socket: it was made, or connected by an accept; one of its calls succeeded. */
  datatype Happening = Made(typ: Type) | Accepted | Bound | Listened | Linked | Transferred

  predicate Is(e: Event, i: nat, a: Happening) {
    match a
    case Made(typ) => e.call.Socket? && e.call.typ == typ && e.answer == Gave(i)
    case Accepted => e.call.Accept? && e.answer == Gave(i)
    case Bound => e.call.Bind? && e.call.i == i && e.answer == Done
    case Listened => e.call.Listen? && e.call.i == i && e.answer == Done
    case Linked => e.call.Connect? && e.call.i == i && e.answer == Done
    case Transferred => e.call.Transfer? && e.call.i == i && e.answer == Done
  }

  /** The entry begins to be a socket, or ceases to be one. */
  predicate Turns(e: Event, i: nat) { e.answer == Gave(i) || e.call == Release(i) }

  /** It has happened to the socket that the entry now is. */
  predicate Since(h: seq<Event>, i: nat, a: Happening) {
    h != [] && (Is(h[|h| - 1], i, a) || (!Turns(h[|h| - 1], i) && Since(h[..|h| - 1], i, a)))
  }

  /** What the calls and their answers say of an entry's phase and type. */
  predicate Told(h: seq<Event>, i: nat, x: Slot) {
    && (Since(h, i, Made(Dgram)) <==> x.phase != Free && x.typ == Dgram)
    && (Since(h, i, Made(Stream)) || Since(h, i, Accepted) <==> x.phase != Free && x.typ == Stream)
    && (x.typ == Stream ==>
          && (x.phase == Connected <==> Since(h, i, Accepted) || Since(h, i, Linked))
          && (x.phase == Listening <==> Since(h, i, Listened)))
    && (x.typ == Dgram ==>
          (x.phase == Open <==> Since(h, i, Bound) || Since(h, i, Linked) || Since(h, i, Transferred)))
  }

  lemma {:induction false} SinceOn(h: seq<Event>, e: Event, i: nat, a: Happening)
    ensures Since(h + [e], i, a) <==> Is(e, i, a) || (!Turns(e, i) && Since(h, i, a))
  {
    assert (h + [e])[..|h|] == h;
  }

  /** What a call and its answer say of an entry before and after it. */
  predicate Changes(e: Event, i: nat, x: Slot, y: Slot) {
    if e.answer == Gave(i) then
      && x.phase == Free && (e.call.Socket? || e.call.Accept?)
      && y.phase == (if e.call.Socket? then New else Connected)
      && y.typ == if e.call.Socket? then e.call.typ else Stream
    else if e.call.Socket? || e.call.i != i || e.call.Accept? || (e.answer.Err? && !e.call.Release?) then
      y.phase == x.phase && y.typ == x.typ
    else
      && y == Leaves(x, e.call) && y.typ == x.typ && x.phase != Free
      && (e.answer == Done || e.call.Enquire?)
      && (e.call.Bind? || (e.call.Connect? && x.typ == Stream) ==> x.phase == New)
      && (e.call.Listen? ==> x.typ == Stream && (x.phase == New || x.phase == Listening))
  }

  lemma Changed(s: State, call: Call, i: nat)
    requires AllFit(s) && Enabled(s, call) && i < |s.slots|
    ensures |After(s, call).slots| == |s.slots|
    ensures Changes(Event(call, Do(s, call).1), i, s.slots[i], After(s, call).slots[i])
  {
    if call.Socket? {
      OpenedExactly(s, call.typ, call.fd);
    } else if Do(s, call).1.Err? {
      RefusalLeaves(s, call);
    } else if call.Accept? {
      AcceptLeaves(s, call.i, call.got, call.fd);
    } else {
      SuccessLeaves(s, call);
    }
  }

  lemma ToldOn(h: seq<Event>, e: Event, i: nat, x: Slot, y: Slot)
    requires Told(h, i, x) && Fits(x) && Fits(y) && Changes(e, i, x, y)
    ensures Told(h + [e], i, y)
  {
    SinceOn(h, e, i, Made(Dgram));
    SinceOn(h, e, i, Made(Stream));
    SinceOn(h, e, i, Accepted);
    SinceOn(h, e, i, Bound);
    SinceOn(h, e, i, Listened);
    SinceOn(h, e, i, Linked);
    SinceOn(h, e, i, Transferred);
  }

  ghost predicate AllTold(h: seq<Event>, s: State) { forall i :: 0 <= i < |s.slots| ==> Told(h, i, s.slots[i]) }

  lemma StepTells(h: seq<Event>, s: State, call: Call)
    requires AllFit(s) && AllTold(h, s) && Enabled(s, call)
    ensures AllFit(After(s, call)) && AllTold(h + [Event(call, Do(s, call).1)], After(s, call))
  {
    var t, e := After(s, call), Event(call, Do(s, call).1);
    StillFit(s, call);
    forall i | 0 <= i < |t.slots| ensures Told(h + [e], i, t.slots[i]) {
      Changed(s, call, i);
      ToldOn(h, e, i, s.slots[i], t.slots[i]);
    }
  }

  lemma {:induction false} RunTells(h: seq<Event>, s: State, calls: seq<Call>)
    requires AllFit(s) && AllTold(h, s) && Runs(s, calls)
    ensures AllTold(h + History(s, calls), Finally(s, calls))
    decreases |calls|
  {
    if calls == [] {
      assert h + [] == h;
    } else {
      var t, e := After(s, calls[0]), Event(calls[0], Do(s, calls[0]).1);
      StepTells(h, s, calls[0]);
      RunTells(h + [e], t, calls[1..]);
      assert h + History(s, calls) == h + [e] + History(t, calls[1..]);
    }
  }

  /** After any run of calls, phase and type of every entry are what the answers so far have told. */
  lemma {:induction false} PhaseIsTold(calls: seq<Call>)
    requires Runs(INITIAL, calls)
    ensures AllTold(History(INITIAL, calls), Finally(INITIAL, calls))
  {
    forall i | 0 <= i < MAX_SOCK ensures Told([], i, INITIAL.slots[i]) {}
    InitialInv();
    RunTells([], INITIAL, calls);
    assert [] + History(INITIAL, calls) == History(INITIAL, calls);
  }

  /** A stream: connected exactly when an accept made it or one of its connects succeeded, a listener exactly when
      one of its listens did. Every later call is answered by that. */
  lemma {:induction false} StreamAnswers(calls: seq<Call>, call: Call)
    requires Runs(INITIAL, calls)
    requires var s := Finally(INITIAL, calls);
      Enabled(s, call) && On(s, call) && !Since(History(INITIAL, calls), call.i, Made(Dgram))
    ensures var h, r := History(INITIAL, calls), Do(Finally(INITIAL, calls), call).1;
      var linked, listens := Since(h, call.i, Accepted) || Since(h, call.i, Linked), Since(h, call.i, Listened);
      && !(linked && listens)
      && (call.Transfer? ==> r == if linked then Done else Err(ENOTCONN))
      && (call.Accept? ==> (r == Err(EINVAL) <==> !listens))
      && (call.Connect? ==> (r == Err(EISCONN) <==> linked) && (r == Err(EINVAL) <==> listens))
      && (call.Listen? ==> (r == Err(EINVAL) <==> linked))
      && (call.Bind? ==> r == if linked || listens then Err(EINVAL) else Done)
  {
    var s := Finally(INITIAL, calls);
    PhaseIsTold(calls);
    assert Told(History(INITIAL, calls), call.i, s.slots[call.i]);
    ClosedOnce(calls, 0);
    assert Fits(s.slots[call.i]);
  }

  /** A datagram socket: the first bind, connect or transfer that succeeds opens it, later ones need nothing of the
      environment, and it is bound before it is open or not at all. */
  lemma {:induction false} DatagramAnswers(calls: seq<Call>, call: Call)
    requires Runs(INITIAL, calls)
    requires var s := Finally(INITIAL, calls);
      Enabled(s, call) && On(s, call) && Since(History(INITIAL, calls), call.i, Made(Dgram))
    ensures var h, r := History(INITIAL, calls), Do(Finally(INITIAL, calls), call).1;
      var open := Since(h, call.i, Bound) || Since(h, call.i, Linked) || Since(h, call.i, Transferred);
      && (call.Listen? ==> r == Err(EOPNOTSUPP))
      && (call.Accept? ==> r == Err(EINVAL))
      && (call.Transfer? || call.Connect? ==> r == if open || call.got.Some? then Done else Err(Environment))
      && (call.Bind? ==> r == if open then Err(EINVAL) else if call.got.Some? then Done else Err(Environment))
  {
    var s := Finally(INITIAL, calls);
    PhaseIsTold(calls);
    assert Told(History(INITIAL, calls), call.i, s.slots[call.i]);
    ClosedOnce(calls, 0);
    assert Fits(s.slots[call.i]);
  }
}
