/**
  The socket table as a value: what each call does to it, what it asks of the environment and answers,
  and what every sequence of calls keeps. An object of the environment (a connection, a listener, a
  datagram endpoint) is a number; the environment promises never to give the same one twice.
*/
module Sockets {
  import opened Options

  const MAX_SOCK: nat := 128

  datatype Type = Stream | Dgram

  datatype Phase = Free | New | Listening | Connected | Open

  /** An entry: the object its phase speaks of, and a connection that a readiness enquiry accepted. */
  datatype Slot = Slot(phase: Phase, typ: Type, obj: Option<nat>, pend: Option<nat>)

  const EMPTY: Slot := Slot(Free, Stream, None, None)

  /** The entries, the objects closed in order, and those ever obtained. */
  datatype State = State(slots: seq<Slot>, closed: seq<nat>, obtained: set<nat>)

  datatype Error = EINVAL | EISCONN | EOPNOTSUPP | ENFILE | EMFILE | ENOTCONN | Environment

  datatype Answer = Err(e: Error) | Done | Gave(slot: nat) | Ready(r: bool)

  /** What a bounded wait comes to: nothing in time, an error, a connection. */
  datatype Heard = Silence | Failure | Connection(o: nat)

  /** A call on an entry that a descriptor names, with what the environment answers if it is asked:
      an object or none. `fd` says whether a descriptor is free for a new socket. */
  datatype Call =
    | Socket(typ: Type, fd: bool)
    | Bind(i: nat, got: Option<nat>)
    | Listen(i: nat, got: Option<nat>)
    | Connect(i: nat, got: Option<nat>)
    | Accept(i: nat, got: Option<nat>, fd: bool)
    | Transfer(i: nat, got: Option<nat>)      // a send or a receive on a datagram socket
    | Enquire(i: nat, heard: Heard)           // a readiness enquiry
    | Release(i: nat)

  /** `slot_alloc`: the first free entry, or their number when there is none. */
  function FirstFree(slots: seq<Slot>, from: nat): (i: nat)
    requires from <= |slots|
    ensures from <= i <= |slots| && (i < |slots| ==> slots[i].phase == Free)
    ensures forall j :: from <= j < i ==> slots[j].phase != Free
    decreases |slots| - from
  {
    if from == |slots| || slots[from].phase == Free then from else FirstFree(slots, from + 1)
  }

  function Close(s: State, o: Option<nat>): State {
    if o.Some? then s.(closed := s.closed + [o.value]) else s
  }

  function Put(s: State, i: nat, x: Slot): State
    requires i < |s.slots|
  {
    s.(slots := s.slots[i := x])
  }

  function Obtain(s: State, o: Option<nat>): State {
    if o.Some? then s.(obtained := s.obtained + {o.value}) else s
  }

  /** The entry takes the object the environment gave, or the call fails and nothing changes. */
  function Take(s: State, i: nat, got: Option<nat>, phase: Phase): (State, Answer)
    requires i < |s.slots|
  {
    if got.None? then (s, Err(Environment))
    else (Put(Obtain(s, got), i, s.slots[i].(phase := phase, obj := got)), Done)
  }

  /** `adopt`: a connection goes to an entry of its own, or is closed. */
  function Adopt(s: State, c: nat, fd: bool): (State, Answer) {
    var j := FirstFree(s.slots, 0);
    if !fd then (Close(s, Some(c)), Err(EMFILE))
    else if j == |s.slots| then (Close(s, Some(c)), Err(ENFILE))
    else (Put(s, j, Slot(Connected, Stream, Some(c), None)), Gave(j))
  }

  function Released(s: State, i: nat): State
    requires i < |s.slots|
  {
    var x := s.slots[i];
    var t := Close(if x.phase == Free || x.phase == New then s else Close(s, x.obj), x.pend);
    Put(t, i, x.(phase := Free, obj := None, pend := None))
  }

  predicate InUse(s: State, i: nat) { i < |s.slots| && s.slots[i].phase != Free }

  predicate Fresh(s: State, got: Option<nat>) { got.Some? ==> got.value !in s.obtained }

  predicate Enabled(s: State, call: Call) {
    match call
    case Socket(_, _) => true
    case Release(i) => InUse(s, i)
    case Bind(i, got) => InUse(s, i) && Fresh(s, got)
    case Listen(i, got) => InUse(s, i) && Fresh(s, got)
    case Connect(i, got) => InUse(s, i) && Fresh(s, got)
    case Accept(i, got, _) => InUse(s, i) && Fresh(s, got)
    case Transfer(i, got) => InUse(s, i) && Fresh(s, got)
    case Enquire(i, heard) => InUse(s, i) && (heard.Connection? ==> heard.o !in s.obtained)
  }

  /** What a call does and answers. */
  function Do(s: State, call: Call): (State, Answer)
    requires Enabled(s, call)
  {
    match call
    case Socket(typ, fd) =>
      var j := FirstFree(s.slots, 0);
      if !fd then (s, Err(EMFILE))
      else if j == |s.slots| then (s, Err(ENFILE))
      else (Put(s, j, Slot(New, typ, None, None)), Gave(j))
    case Bind(i, got) =>
      if s.slots[i].phase != New then (s, Err(EINVAL))
      else if s.slots[i].typ == Dgram then Take(s, i, got, Open)
      else (s, Done)
    case Listen(i, got) =>
      if s.slots[i].typ != Stream then (s, Err(EOPNOTSUPP))
      else if s.slots[i].phase == Listening then (s, Done)
      else if s.slots[i].phase != New then (s, Err(EINVAL))
      else Take(s, i, got, Listening)
    case Connect(i, got) =>
      if s.slots[i].typ == Dgram then (if s.slots[i].phase == New then Take(s, i, got, Open) else (s, Done))
      else if s.slots[i].phase == Connected then (s, Err(EISCONN))
      else if s.slots[i].phase != New then (s, Err(EINVAL))
      else Take(s, i, got, Connected)
    case Accept(i, got, fd) =>
      if s.slots[i].phase != Listening then (s, Err(EINVAL))
      else if s.slots[i].pend.Some? then Adopt(Put(s, i, s.slots[i].(pend := None)), s.slots[i].pend.value, fd)
      else if got.None? then (s, Err(Environment))
      else Adopt(Obtain(s, got), got.value, fd)
    case Transfer(i, got) =>
      if s.slots[i].typ == Dgram && s.slots[i].phase == New then Take(s, i, got, Open)
      else if s.slots[i].typ == Dgram || s.slots[i].phase == Connected then (s, Done)
      else (s, Err(ENOTCONN))
    case Enquire(i, heard) =>
      if s.slots[i].phase != Listening then (s, Ready(false))
      else if s.slots[i].pend.Some? then (s, Ready(true))
      else (match heard
            case Silence => (s, Ready(false))
            case Failure => (s, Err(Environment))
            case Connection(o) => (Put(Obtain(s, Some(o)), i, s.slots[i].(pend := Some(o))), Ready(true)))
    case Release(i) => (Released(s, i), Done)
  }

  function After(s: State, call: Call): State
    requires Enabled(s, call)
  {
    Do(s, call).0
  }

  // --- where an object is ---

  function Of(x: Slot, o: nat): nat {
    (if x.obj == Some(o) then 1 else 0) + (if x.pend == Some(o) then 1 else 0)
  }

  /** How many times the entries hold an object. */
  function Held(slots: seq<Slot>, o: nat): nat {
    if slots == [] then 0 else Of(slots[0], o) + Held(slots[1..], o)
  }

  function Times(closed: seq<nat>, o: nat): nat {
    if closed == [] then 0 else Times(closed[..|closed| - 1], o) + if closed[|closed| - 1] == o then 1 else 0
  }

  lemma {:induction false} HeldPut(slots: seq<Slot>, i: nat, x: Slot, o: nat)
    requires i < |slots|
    ensures Held(slots[i := x], o) + Of(slots[i], o) == Held(slots, o) + Of(x, o)
  {
    if i > 0 {
      assert slots[i := x][1..] == slots[1..][i - 1 := x];
      HeldPut(slots[1..], i - 1, x, o);
    } else {
      assert slots[i := x][1..] == slots[1..];
    }
  }

  lemma {:induction false} TimesClose(s: State, c: Option<nat>, o: nat)
    ensures Times(Close(s, c).closed, o) == Times(s.closed, o) + if c == Some(o) then 1 else 0
  {
    if c.Some? {
      assert (s.closed + [c.value])[..|s.closed|] == s.closed;
    }
  }

  /** The phase of an entry, its type and the objects it holds go together. */
  predicate Fits(x: Slot) {
    && (x.obj.Some? <==> x.phase != Free && x.phase != New)
    && (x.phase == Listening || x.phase == Connected ==> x.typ == Stream)
    && (x.phase == Open ==> x.typ == Dgram)
    && (x.pend.Some? ==> x.phase == Listening)
  }

  ghost predicate AllFit(s: State) { forall i :: 0 <= i < |s.slots| ==> Fits(s.slots[i]) }

  /** Every object that was obtained is in one place or has been closed once; no other is anywhere. */
  ghost predicate Balanced(s: State, o: nat) {
    Held(s.slots, o) + Times(s.closed, o) == if o in s.obtained then 1 else 0
  }

  ghost predicate Inv(s: State) {
    && |s.slots| == MAX_SOCK
    && AllFit(s)
    && forall o :: Balanced(s, o)
  }

  lemma TakeBalances(s: State, i: nat, got: Option<nat>, phase: Phase, o: nat)
    requires Inv(s) && i < |s.slots| && s.slots[i].phase == New && Fresh(s, got)
    ensures Balanced(Take(s, i, got, phase).0, o)
  {
    assert Balanced(s, o);
    HeldPut(s.slots, i, s.slots[i].(phase := phase, obj := got), o);
  }

  lemma {:induction false} AdoptBalances(s: State, c: nat, fd: bool, o: nat)
    requires forall i :: 0 <= i < |s.slots| ==> Fits(s.slots[i])
    requires Held(s.slots, o) + Times(s.closed, o) + (if c == o then 1 else 0) == if o in s.obtained then 1 else 0
    ensures Balanced(Adopt(s, c, fd).0, o)
  {
    TimesClose(s, Some(c), o);
    var j := FirstFree(s.slots, 0);
    if j < |s.slots| {
      HeldPut(s.slots, j, Slot(Connected, Stream, Some(c), None), o);
    }
  }

  lemma ReleaseBalances(s: State, i: nat, o: nat)
    requires Inv(s) && i < |s.slots|
    ensures Balanced(Released(s, i), o)
  {
    assert Balanced(s, o);
    var x := s.slots[i];
    var t := if x.phase == Free || x.phase == New then s else Close(s, x.obj);
    TimesClose(s, x.obj, o);
    TimesClose(t, x.pend, o);
    HeldPut(s.slots, i, x.(phase := Free, obj := None, pend := None), o);
  }

  lemma AcceptBalances(s: State, i: nat, got: Option<nat>, fd: bool, o: nat)
    requires Inv(s) && Enabled(s, Accept(i, got, fd))
    ensures Balanced(After(s, Accept(i, got, fd)), o)
  {
    assert Balanced(s, o);
    if s.slots[i].phase == Listening {
      if s.slots[i].pend.Some? {
        HeldPut(s.slots, i, s.slots[i].(pend := None), o);
        AdoptBalances(Put(s, i, s.slots[i].(pend := None)), s.slots[i].pend.value, fd, o);
      } else if got.Some? {
        AdoptBalances(Obtain(s, got), got.value, fd, o);
      }
    }
  }

  lemma SocketBalances(s: State, typ: Type, fd: bool, o: nat)
    requires Inv(s)
    ensures Balanced(After(s, Socket(typ, fd)), o)
  {
    assert Balanced(s, o);
    var j := FirstFree(s.slots, 0);
    if j < |s.slots| { HeldPut(s.slots, j, Slot(New, typ, None, None), o); }
  }

  lemma EnquireBalances(s: State, i: nat, heard: Heard, o: nat)
    requires Inv(s) && Enabled(s, Enquire(i, heard))
    ensures Balanced(After(s, Enquire(i, heard)), o)
  {
    assert Balanced(s, o);
    if heard.Connection? { HeldPut(s.slots, i, s.slots[i].(pend := Some(heard.o)), o); }
  }

  lemma CallBalances(s: State, call: Call, o: nat)
    requires Inv(s) && Enabled(s, call)
    ensures Balanced(After(s, call), o)
  {
    assert Balanced(s, o);
    match call
    case Socket(typ, fd) => SocketBalances(s, typ, fd, o);
    case Bind(i, got) => if s.slots[i].phase == New { TakeBalances(s, i, got, Open, o); }
    case Listen(i, got) => if s.slots[i].phase == New { TakeBalances(s, i, got, Listening, o); }
    case Connect(i, got) =>
      if s.slots[i].phase == New {
        TakeBalances(s, i, got, Open, o);
        TakeBalances(s, i, got, Connected, o);
      }
    case Accept(i, got, fd) => AcceptBalances(s, i, got, fd, o);
    case Transfer(i, got) => if s.slots[i].phase == New { TakeBalances(s, i, got, Open, o); }
    case Enquire(i, heard) => EnquireBalances(s, i, heard, o);
    case Release(i) => ReleaseBalances(s, i, o);
  }

  /** The phases an entry goes through until it is released: free, new, then one of three; an accepted
      connection's entry is connected at once. */
  predicate Follows(x: Slot, y: Slot) {
    || y.phase == x.phase
    || (x.phase == Free && (y.phase == New || y.phase == Connected))
    || (x.phase == New && y.phase != Free && y.typ == x.typ)
  }

  /** An entry after a call: free if the call releases it, else as it was or one phase further. */
  predicate Goes(s: State, call: Call, t: State, i: nat)
    requires i < |s.slots| == |t.slots|
  {
    Fits(t.slots[i]) && if call == Release(i) then t.slots[i].phase == Free else Follows(s.slots[i], t.slots[i])
  }

  /** Every entry fits, and is as it was or one phase further. */
  ghost predicate Onward(s: State, t: State) {
    |t.slots| == |s.slots| && forall i :: 0 <= i < |s.slots| ==> Fits(t.slots[i]) && Follows(s.slots[i], t.slots[i])
  }

  lemma PutOnward(s: State, t: State, i: nat, x: Slot)
    requires AllFit(s) && i < |s.slots| && t.slots == s.slots[i := x] && Fits(x) && Follows(s.slots[i], x)
    ensures Onward(s, t)
  {
  }

  lemma TakeOnward(s: State, i: nat, got: Option<nat>, phase: Phase)
    requires AllFit(s) && i < |s.slots| && s.slots[i].phase == New && phase != Free && phase != New
    requires if phase == Open then s.slots[i].typ == Dgram else s.slots[i].typ == Stream
    ensures Onward(s, Take(s, i, got, phase).0)
  {
    if got.Some? { PutOnward(s, Take(s, i, got, phase).0, i, s.slots[i].(phase := phase, obj := got)); }
  }

  lemma AdoptOnward(s: State, c: nat, fd: bool)
    requires AllFit(s)
    ensures Onward(s, Adopt(s, c, fd).0)
  {
    var j := FirstFree(s.slots, 0);
    if fd && j < |s.slots| { PutOnward(s, Adopt(s, c, fd).0, j, Slot(Connected, Stream, Some(c), None)); }
  }

  lemma AcceptOnward(s: State, i: nat, got: Option<nat>, fd: bool)
    requires AllFit(s) && Enabled(s, Accept(i, got, fd))
    ensures Onward(s, After(s, Accept(i, got, fd)))
  {
    if s.slots[i].phase == Listening {
      if s.slots[i].pend.Some? {
        var u := Put(s, i, s.slots[i].(pend := None));
        PutOnward(s, u, i, s.slots[i].(pend := None));
        AdoptOnward(u, s.slots[i].pend.value, fd);
        FollowsThrough(s, u, After(s, Accept(i, got, fd)), i);
      } else if got.Some? {
        AdoptOnward(Obtain(s, got), got.value, fd);
      }
    }
  }

  lemma FollowsThrough(s: State, u: State, t: State, i: nat)
    requires Onward(s, u) && Onward(u, t) && i < |s.slots| && u.slots == s.slots[i := u.slots[i]]
    requires u.slots[i].phase == s.slots[i].phase != Free && u.slots[i].typ == s.slots[i].typ
    ensures Onward(s, t)
  {
  }

  lemma CallOnward(s: State, call: Call)
    requires AllFit(s) && Enabled(s, call) && !call.Release?
    ensures Onward(s, After(s, call))
  {
    match call
    case Socket(typ, fd) =>
      var j := FirstFree(s.slots, 0);
      if fd && j < |s.slots| { PutOnward(s, After(s, call), j, Slot(New, typ, None, None)); }
    case Bind(i, got) => if s.slots[i].phase == New && s.slots[i].typ == Dgram { TakeOnward(s, i, got, Open); }
    case Listen(i, got) => if s.slots[i].phase == New && s.slots[i].typ == Stream { TakeOnward(s, i, got, Listening); }
    case Connect(i, got) =>
      if s.slots[i].phase == New { TakeOnward(s, i, got, if s.slots[i].typ == Dgram then Open else Connected); }
    case Accept(i, got, fd) => AcceptOnward(s, i, got, fd);
    case Transfer(i, got) => if s.slots[i].phase == New && s.slots[i].typ == Dgram { TakeOnward(s, i, got, Open); }
    case Enquire(i, heard) =>
      if s.slots[i].phase == Listening && s.slots[i].pend.None? && heard.Connection? {
        PutOnward(s, After(s, call), i, s.slots[i].(pend := Some(heard.o)));
      }
  }

  lemma ReleaseGoes(s: State, i: nat)
    requires AllFit(s) && Enabled(s, Release(i))
    ensures var t := Released(s, i); |t.slots| == |s.slots| && forall j :: 0 <= j < |s.slots| ==>
      Goes(s, Release(i), t, j)
  {
  }

  /** Only a release frees an entry, and only the one it names. */
  lemma SlotsFit(s: State, call: Call)
    requires Enabled(s, call) && forall i :: 0 <= i < |s.slots| ==> Fits(s.slots[i])
    ensures var t := After(s, call); |t.slots| == |s.slots| && forall i :: 0 <= i < |s.slots| ==> Goes(s, call, t, i)
  {
    if call.Release? { ReleaseGoes(s, call.i); } else { CallOnward(s, call); }
  }

  lemma StillFit(s: State, call: Call)
    requires AllFit(s) && Enabled(s, call)
    ensures AllFit(After(s, call)) && |After(s, call).slots| == |s.slots|
  {
    SlotsFit(s, call);
    GoesFits(s, call, After(s, call));
  }

  lemma GoesFits(s: State, call: Call, t: State)
    requires |t.slots| == |s.slots| && forall i :: 0 <= i < |s.slots| ==> Goes(s, call, t, i)
    ensures AllFit(t)
  {
    forall i | 0 <= i < |t.slots| ensures Fits(t.slots[i]) { assert Goes(s, call, t, i); }
  }

  lemma StepKeepsInv(s: State, call: Call)
    requires Inv(s) && Enabled(s, call)
    ensures Inv(After(s, call))
  {
    StillFit(s, call);
    forall o ensures Balanced(After(s, call), o) { CallBalances(s, call, o); }
  }

  // --- runs ---

  predicate Runs(s: State, calls: seq<Call>)
    decreases |calls|
  {
    calls == [] || (Enabled(s, calls[0]) && Runs(After(s, calls[0]), calls[1..]))
  }

  function Finally(s: State, calls: seq<Call>): State
    requires Runs(s, calls)
    decreases |calls|
  {
    if calls == [] then s else Finally(After(s, calls[0]), calls[1..])
  }

  const INITIAL: State := State(seq(MAX_SOCK, _ => EMPTY), [], {})

  lemma {:induction false} NothingHeld(slots: seq<Slot>, o: nat)
    requires forall i :: 0 <= i < |slots| ==> slots[i].obj == None && slots[i].pend == None
    ensures Held(slots, o) == 0
  {
    if slots != [] { NothingHeld(slots[1..], o); }
  }

  lemma InitialInv()
    ensures Inv(INITIAL)
  {
    forall o ensures Balanced(INITIAL, o) { NothingHeld(INITIAL.slots, o); }
  }

  lemma {:induction false} RunKeepsInv(s: State, calls: seq<Call>)
    requires Inv(s) && Runs(s, calls)
    ensures Inv(Finally(s, calls))
    decreases |calls|
  {
    if calls != [] {
      StepKeepsInv(s, calls[0]);
      RunKeepsInv(After(s, calls[0]), calls[1..]);
    }
  }

  /** After any sequence of calls: what was obtained is held once or has been closed once, never both;
      nothing else is closed; each entry's type and objects match its phase. */
  lemma {:induction false} ClosedOnce(calls: seq<Call>, o: nat)
    requires Runs(INITIAL, calls)
    ensures var t := Finally(INITIAL, calls);
      && (o in t.obtained ==> Held(t.slots, o) + Times(t.closed, o) == 1)
      && (o !in t.obtained ==> Times(t.closed, o) == 0)
      && forall i :: 0 <= i < |t.slots| ==> Fits(t.slots[i])
  {
    InitialInv();
    RunKeepsInv(INITIAL, calls);
    assert Balanced(Finally(INITIAL, calls), o);
  }

  /** Once every entry has been released, everything that was obtained has been closed, once: what
      `connect` and `accept` gave, and what only a readiness enquiry ever saw. */
  lemma {:induction false} NothingIsLost(calls: seq<Call>, o: nat)
    requires Runs(INITIAL, calls)
    requires forall i :: 0 <= i < MAX_SOCK && i < |Finally(INITIAL, calls).slots| ==>
      Finally(INITIAL, calls).slots[i].phase == Free
    ensures o in Finally(INITIAL, calls).obtained ==> Times(Finally(INITIAL, calls).closed, o) == 1
  {
    var t := Finally(INITIAL, calls);
    InitialInv();
    RunKeepsInv(INITIAL, calls);
    ClosedOnce(calls, o);
    forall i | 0 <= i < |t.slots| ensures t.slots[i].obj == None && t.slots[i].pend == None {
      assert Fits(t.slots[i]);
    }
    NothingHeld(t.slots, o);
  }

  /** A listener that an enquiry found ready: the next accept has its connection without asking the
      environment, whatever the environment would have answered. */
  lemma ReadyListenerAccepts(s: State, i: nat, heard: Heard, later: Option<nat>, fd: bool)
    requires Inv(s) && Enabled(s, Enquire(i, heard)) && s.slots[i].phase == Listening
    ensures var (t, r) := Do(s, Enquire(i, heard));
      && (r == Ready(true) <==> t.slots[i].pend.Some?)
      && (r == Err(Environment) <==> heard == Failure && s.slots[i].pend.None?)
      && (r == Ready(true) && Enabled(t, Accept(i, later, fd)) ==>
            && Enabled(t, Accept(i, None, fd))
            && Do(t, Accept(i, later, fd)) == Do(t, Accept(i, None, fd))
            && Do(t, Accept(i, later, fd)).1 != Err(Environment)
            && Do(t, Accept(i, later, fd)).0.slots[i].pend == None)
  {
  }
}
