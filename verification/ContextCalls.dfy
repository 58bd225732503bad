/**
  When a call that has to make an entry of the table of `Contexts` is refused: from where it begins to where
  it returns, with and without the steps of others in between.
*/
module ContextCalls {
  import opened Options
  import opened Contexts

  /** The context has begun a call that makes an entry where there is none. */
  predicate Begins(s: State, c: nat) {
    c in s.contexts && Creates(s.contexts[c].op) && s.contexts[c].pc == Probing(StartAt(c), 0, None)
  }

  /** A run that ends where the context's call returns. */
  ghost predicate ToTheReturn(s: State, es: seq<Event>, c: nat)
    requires Runs(s, es)
    decreases |es|
  {
    && c in s.contexts
    && if es == [] then s.contexts[c].pc.Returned?
       else !s.contexts[c].pc.Returned? && ToTheReturn(Step(s, es[0].c, es[0].op), es[1..], c)
  }

  predicate Refused(s: State, es: seq<Event>, c: nat)
    requires Runs(s, es) && c in s.contexts
  {
    c in After(s, es).contexts && After(s, es).contexts[c].pc == Returned(Failed(s.contexts[c].op))
  }

  /** A step after which the call has returned is the run's last. */
  lemma {:induction false} ReturnsHere(s: State, es: seq<Event>, c: nat)
    requires Runs(s, es) && es != [] && ToTheReturn(s, es, c)
    requires var t := Step(s, es[0].c, es[0].op); c in t.contexts && t.contexts[c].pc.Returned?
    ensures es[1..] == [] && After(s, es) == Step(s, es[0].c, es[0].op)
  {
    assert ToTheReturn(Step(s, es[0].c, es[0].op), es[1..], c);
  }

  /** Another context's key. */
  predicate Others(key: nat, c: nat) { IsKey(key) && key != c }

  // --- a call that nothing disturbs ---

  /** Every entry is another context's. */
  ghost predicate FullFor(slots: Table, c: nat) {
    forall a :: 0 <= a < CONTEXTS ==> Others(slots[a].key, c)
  }

  /** What has been passed is another's; what has been kept in mind is retired. */
  ghost predicate Passed(slots: Table, c: nat, n: nat, free: Option<nat>) {
    && (forall e {:trigger At(c, e)} :: 0 <= e < n ==> slots[At(c, e)].key != FREE && slots[At(c, e)].key != c)
    && (free.None? ==> forall e {:trigger At(c, e)} :: 0 <= e < n ==> slots[At(c, e)].key != RETIRED)
    && (free.Some? ==> free.value < CONTEXTS && slots[free.value].key == RETIRED)
  }

  lemma PassedAll(slots: Table, c: nat)
    requires Passed(slots, c, CONTEXTS, None)
    ensures FullFor(slots, c)
  {
    forall a | 0 <= a < CONTEXTS ensures Others(slots[a].key, c) {
      var d := Reaches(c, a);
    }
  }

  /** Where a context that has no entry yet goes, alone: on, or to a place that is free to be claimed. */
  ghost predicate OnTheWay(slots: Table, c: nat, pc: Pc) {
    match pc
    case Probing(i, n, free) => n < CONTEXTS && i == At(c, n) && Passed(slots, c, n, free)
    case Claiming(f) => f < CONTEXTS && !IsKey(slots[f].key)
    case Swapping(f, expected) => f < CONTEXTS && slots[f].key == expected
    case Holding(_) => true
    case Recording => true
    case _ => false
  }

  lemma OneProbe(s: State, c: nat, op: Op, i: nat, n: nat, free: Option<nat>)
    requires IsKey(c) && Creates(op) && n < CONTEXTS && i == At(c, n) && Passed(s.slots, c, n, free)
    ensures var pc := Probe(s, c, op, i, n, free);
      && (pc.Returned? ==> pc == Returned(Failed(op)) && FullFor(s.slots, c))
      && (!pc.Returned? ==> OnTheWay(s.slots, c, pc) && (!pc.Probing? ==> !FullFor(s.slots, c)))
  {
    Following(c, n);
    var k := s.slots[i].key;
    if k != c && k != FREE {
      var free' := if k == RETIRED && free.None? then Some(i) else free;
      assert Passed(s.slots, c, n + 1, free');
      if free'.None? && n + 1 == CONTEXTS { PassedAll(s.slots, c); }
    }
  }

  /** In a run in which it alone steps, a call is refused exactly when every entry is another's where the
      call begins; and once a place has been found it is not. */
  lemma {:induction false} AloneGoes(s: State, es: seq<Event>, c: nat)
    requires Runs(s, es) && ToTheReturn(s, es, c) && forall i :: 0 <= i < |es| ==> es[i].c == c
    requires IsKey(c) && Creates(s.contexts[c].op) && OnTheWay(s.slots, c, s.contexts[c].pc)
    ensures Refused(s, es, c) <==> s.contexts[c].pc.Probing? && FullFor(s.slots, c)
    decreases |es|
  {
    var t, me := Step(s, c, es[0].op), s.contexts[c];
    if me.pc.Probing? { OneProbe(s, c, me.op, me.pc.i, me.pc.n, me.pc.free); }
    if t.contexts[c].pc.Returned? { ReturnsHere(s, es, c); } else { AloneGoes(t, es[1..], c); }
  }

  /** A context that steps alone is refused an entry exactly when every entry is another's. */
  lemma {:induction false} AloneFailsWhenFull(s: State, es: seq<Event>, c: nat)
    requires IsKey(c) && Begins(s, c) && Runs(s, es) && ToTheReturn(s, es, c)
    requires forall i :: 0 <= i < |es| ==> es[i].c == c
    ensures Refused(s, es, c) <==> FullFor(s.slots, c)
  {
    assert At(c, 0) == StartAt(c);
    AloneGoes(s, es, c);
  }

  // --- a call among others ---

  /** In this run the context probes an entry and finds another's key in it. */
  ghost predicate FindsTaken(s: State, es: seq<Event>, c: nat, a: nat)
    requires Runs(s, es)
    decreases |es|
  {
    es != [] && (TakenAt(s, es[0], c, a) || FindsTaken(Step(s, es[0].c, es[0].op), es[1..], c, a))
  }

  predicate TakenAt(s: State, e: Event, c: nat, a: nat)
    requires Enabled(s, e.c)
  {
    e.c == c && s.contexts[c].pc.Probing? && s.contexts[c].pc.i == a && Others(s.slots[a].key, c)
  }

  /** It loads the key of the entry it has chosen, and the entry has become another's. */
  ghost predicate LosesAtLoad(s: State, es: seq<Event>, c: nat)
    requires Runs(s, es)
    decreases |es|
  {
    es != [] && (LostAtLoad(s, es[0], c) || LosesAtLoad(Step(s, es[0].c, es[0].op), es[1..], c))
  }

  predicate LostAtLoad(s: State, e: Event, c: nat)
    requires Enabled(s, e.c)
  {
    e.c == c && s.contexts[c].pc.Claiming? && Others(s.slots[s.contexts[c].pc.f].key, c)
  }

  /** It swaps its key in, and the entry no longer has the key that was loaded. */
  ghost predicate LosesAtSwap(s: State, es: seq<Event>, c: nat)
    requires Runs(s, es)
    decreases |es|
  {
    es != [] && (LostAtSwap(s, es[0], c) || LosesAtSwap(Step(s, es[0].c, es[0].op), es[1..], c))
  }

  predicate LostAtSwap(s: State, e: Event, c: nat)
    requires Enabled(s, e.c)
  {
    e.c == c && s.contexts[c].pc.Swapping? && s.slots[s.contexts[c].pc.f].key != s.contexts[c].pc.expected
  }

  /** The places of a call that makes an entry. */
  predicate InCall(c: nat, pc: Pc) {
    && InTable(pc) && !pc.Clearing? && !pc.Retiring? && !pc.Missing? && !pc.Returned?
    && (pc.Probing? ==> pc.i == At(c, pc.n) && (pc.free.Some? ==> pc.free.value < CONTEXTS))
  }

  /** It finds every entry from a distance on taken. */
  ghost predicate FindsAllTaken(s: State, es: seq<Event>, c: nat, n: nat)
    requires Runs(s, es)
  {
    forall d {:trigger At(c, d)} :: n <= d < CONTEXTS ==> FindsTaken(s, es, c, At(c, d))
  }

  /** What refuses a call from where it is. */
  ghost predicate Causes(s: State, es: seq<Event>, c: nat)
    requires Runs(s, es) && c in s.contexts
  {
    var pc := s.contexts[c].pc;
    (pc.Probing? && pc.free.None? && FindsAllTaken(s, es, c, pc.n)) || LosesAtLoad(s, es, c) || LosesAtSwap(s, es, c)
  }

  lemma OthersMoveNothing(s: State, e: Event, c: nat)
    requires Enabled(s, e.c) && e.c != c && c in s.contexts
    ensures c in Step(s, e.c, e.op).contexts && Step(s, e.c, e.op).contexts[c] == s.contexts[c]
  {
  }

  /** Where a step of its own takes a context in such a call. */
  lemma OwnStepStays(s: State, e: Event)
    requires Enabled(s, e.c) && Creates(s.contexts[e.c].op) && InCall(e.c, s.contexts[e.c].pc)
    ensures var x, y := s.contexts[e.c], Step(s, e.c, e.op).contexts[e.c];
      && y.op == x.op && (y.pc.Returned? || InCall(e.c, y.pc))
      && (y.pc.Probing? ==> x.pc.Probing? && y.pc.n == x.pc.n + 1)
  {
    if s.contexts[e.c].pc.Probing? { Following(e.c, s.contexts[e.c].pc.n); }
  }

  /** An entry that the search has passed is not probed again in the same call. */
  lemma {:induction false} NotTwice(s: State, es: seq<Event>, c: nat, d: nat)
    requires Runs(s, es) && ToTheReturn(s, es, c) && d < CONTEXTS && Creates(s.contexts[c].op)
    requires s.contexts[c].pc.Returned? || InCall(c, s.contexts[c].pc)
    requires s.contexts[c].pc.Probing? ==> d < s.contexts[c].pc.n
    ensures !FindsTaken(s, es, c, At(c, d))
    decreases |es|
  {
    if es != [] {
      if s.contexts[c].pc.Probing? && At(c, d) == s.contexts[c].pc.i { Once(c, d, s.contexts[c].pc.n); }
      if es[0].c == c { OwnStepStays(s, es[0]); } else { OthersMoveNothing(s, es[0], c); }
      NotTwice(Step(s, es[0].c, es[0].op), es[1..], c, d);
    }
  }

  /** All from a distance on, or the one there and all behind it. */
  lemma {:induction false} TakenSplit(s: State, es: seq<Event>, c: nat)
    requires Runs(s, es) && es != [] && ToTheReturn(s, es, c) && es[0].c == c
    requires Creates(s.contexts[c].op) && InCall(c, s.contexts[c].pc) && s.contexts[c].pc.Probing?
    ensures var t, pc := Step(s, c, es[0].op), s.contexts[c].pc;
      FindsAllTaken(s, es, c, pc.n) <==> Others(s.slots[pc.i].key, c) && FindsAllTaken(t, es[1..], c, pc.n + 1)
  {
    var t, n := Step(s, c, es[0].op), s.contexts[c].pc.n;
    OwnStepStays(s, es[0]);
    NotTwice(t, es[1..], c, n);
    assert FindsTaken(s, es, c, At(c, n)) <==> Others(s.slots[At(c, n)].key, c);
    forall d: nat | n < d < CONTEXTS ensures FindsTaken(s, es, c, At(c, d)) <==> FindsTaken(t, es[1..], c, At(c, d)) {
      if At(c, d) == At(c, n) { Once(c, d, n); }
    }
  }

  /** Where a probe leads. */
  lemma ProbeLeads(s: State, c: nat, op: Op, i: nat, n: nat, free: Option<nat>)
    requires i < CONTEXTS && n < CONTEXTS && Creates(op)
    ensures var k, pc := s.slots[i].key, Probe(s, c, op, i, n, free);
      if Others(k, c) then
        if n + 1 < CONTEXTS then pc == Probing((i + 1) % CONTEXTS, n + 1, free)
        else if free.None? then pc == Returned(Failed(op)) else pc == Claiming(free.value)
      else !pc.Returned? && (pc.Probing? ==> pc.free.Some?)
  {
  }

  /** A step of the call's own leaves what may refuse it as it was, or decides it. */
  lemma {:induction false} OwnStepCauses(s: State, es: seq<Event>, c: nat)
    requires Runs(s, es) && es != [] && ToTheReturn(s, es, c) && es[0].c == c
    requires Creates(s.contexts[c].op) && InCall(c, s.contexts[c].pc)
    ensures var t := Step(s, c, es[0].op);
      Causes(s, es, c) <==> t.contexts[c].pc == Returned(Failed(s.contexts[c].op)) || Causes(t, es[1..], c)
  {
    var t, pc := Step(s, c, es[0].op), s.contexts[c].pc;
    if t.contexts[c].pc.Returned? { ReturnsHere(s, es, c); }
    if pc.Probing? {
      ProbeLeads(s, c, s.contexts[c].op, pc.i, pc.n, pc.free);
      TakenSplit(s, es, c);
    }
  }

  lemma {:induction false} OtherStepCauses(s: State, es: seq<Event>, c: nat)
    requires Runs(s, es) && es != [] && es[0].c != c && c in s.contexts
    ensures Causes(s, es, c) <==> Causes(Step(s, es[0].c, es[0].op), es[1..], c)
  {
    var t := Step(s, es[0].c, es[0].op);
    OthersMoveNothing(s, es[0], c);
    forall d: nat ensures FindsTaken(s, es, c, At(c, d)) <==> FindsTaken(t, es[1..], c, At(c, d)) {}
  }

  lemma {:induction false} RefusedFor(s: State, es: seq<Event>, c: nat)
    requires Runs(s, es) && ToTheReturn(s, es, c) && Creates(s.contexts[c].op) && InCall(c, s.contexts[c].pc)
    ensures Refused(s, es, c) <==> Causes(s, es, c)
    decreases |es|
  {
    var t := Step(s, es[0].c, es[0].op);
    if es[0].c == c {
      OwnStepCauses(s, es, c);
      OwnStepStays(s, es[0]);
      if t.contexts[c].pc.Returned? { ReturnsHere(s, es, c); } else { RefusedFor(t, es[1..], c); }
    } else {
      OtherStepCauses(s, es, c);
      OthersMoveNothing(s, es[0], c);
      RefusedFor(t, es[1..], c);
    }
  }

  /** Whatever others do meanwhile, a call that has to make an entry is refused exactly when it found every
      entry taken as it probed it, or lost the entry it had chosen to another before it loaded its key, or
      between loading and swapping it. */
  lemma {:induction false} RefusedExactly(s: State, es: seq<Event>, c: nat)
    requires Begins(s, c) && Runs(s, es) && ToTheReturn(s, es, c)
    ensures Refused(s, es, c) <==>
      || FindsEach(s, es, c)
      || LosesAtLoad(s, es, c) || LosesAtSwap(s, es, c)
  {
    assert At(c, 0) == StartAt(c);
    RefusedFor(s, es, c);
    EveryEntry(s, es, c);
  }

  /** Every entry is found taken, whichever it is. */
  ghost predicate FindsEach(s: State, es: seq<Event>, c: nat)
    requires Runs(s, es)
  {
    forall a: nat :: a < CONTEXTS ==> FindsTaken(s, es, c, a)
  }

  lemma {:induction false} FindsAt(s: State, es: seq<Event>, c: nat, a: nat)
    requires Runs(s, es) && FindsAllTaken(s, es, c, 0) && a < CONTEXTS
    ensures FindsTaken(s, es, c, a)
  {
    var d := Reaches(c, a);
    assert FindsTaken(s, es, c, At(c, d));
  }

  /** Every distance is every entry. */
  lemma {:induction false} EveryEntry(s: State, es: seq<Event>, c: nat)
    requires Runs(s, es)
    ensures FindsAllTaken(s, es, c, 0) <==> FindsEach(s, es, c)
  {
    if FindsAllTaken(s, es, c, 0) {
      forall a: nat | a < CONTEXTS ensures FindsTaken(s, es, c, a) { FindsAt(s, es, c, a); }
    }
    if FindsEach(s, es, c) {
      forall d: nat {:trigger At(c, d)} | d < CONTEXTS ensures FindsTaken(s, es, c, At(c, d)) {}
    }
  }

  /** Two contexts, each about to claim the same entry. */
  predicate BothClaim(s: State, b: nat, c: nat, f: nat, v: int) {
    && f < CONTEXTS && b in s.contexts && c in s.contexts
    && s.contexts[b].(was := None) == s.contexts[c].(was := None) == Context(SetTp(v), None, Claiming(f))
  }

  /** Steps of the first and the second, in turn. */
  function InTurn(b: nat, c: nat, v: int): seq<Event> {
    [Event(b, SetTp(v)), Event(c, SetTp(v)), Event(b, SetTp(v)), Event(c, SetTp(v))]
  }

  predicate BothIdle(s: State, b: nat, c: nat) {
    b in s.contexts && s.contexts[b].pc == Returned(Done) && c in s.contexts && s.contexts[c].pc == Returned(Done)
  }

  lemma {:induction false} BothChoose(s: State, b: nat, c: nat, f: nat, v: int) returns (t: State)
    requires f == StartAt(b) == StartAt(c) && b != c && IsKey(b) && IsKey(c) && s.slots[f].key == FREE
    requires BothIdle(s, b, c)
    ensures Runs(s, InTurn(b, c, v)) && After(s, InTurn(b, c, v)) == t
    ensures t.slots == s.slots && BothClaim(t, b, c, f, v)
  {
    var op := SetTp(v);
    var s1 := Step(s, b, op);
    var s2 := Step(s1, c, op);
    var s3 := Step(s2, b, op);
    t := Step(s3, c, op);
    FourSteps(s, Event(b, op), Event(c, op), t);
  }

  lemma {:induction false} OneIsRefused(s: State, b: nat, c: nat, f: nat, v: int) returns (t: State)
    requires BothClaim(s, b, c, f, v) && s.slots[f].key == FREE && b != c && IsKey(b) && IsKey(c)
    ensures Runs(s, InTurn(b, c, v)) && After(s, InTurn(b, c, v)) == t
    ensures c in t.contexts && t.contexts[c].pc == Returned(Aborted)
    ensures t.slots == s.slots[f := t.slots[f]]
  {
    var op := SetTp(v);
    var s1 := Step(s, b, op);
    var s2 := Step(s1, c, op);
    var s3 := Step(s2, b, op);
    assert s3.slots[f].key == b;
    t := Step(s3, c, op);
    FourSteps(s, Event(b, op), Event(c, op), t);
  }

  lemma {:induction false} FourSteps(s: State, a: Event, b: Event, t: State)
    requires Enabled(s, a.c) && Enabled(Step(s, a.c, a.op), b.c)
    requires var s2 := Step(Step(s, a.c, a.op), b.c, b.op);
      Enabled(s2, a.c) && Enabled(Step(s2, a.c, a.op), b.c) && t == Step(Step(s2, a.c, a.op), b.c, b.op)
    ensures Runs(s, [a, b, a, b]) && After(s, [a, b, a, b]) == t
  {
    TwoSteps(s, a, b);
    TwoSteps(After(s, [a, b]), a, b);
    OneRun(s, [a, b], [a, b]);
    assert [a, b] + [a, b] == [a, b, a, b];
  }

  lemma {:induction false} TwoSteps(s: State, a: Event, b: Event)
    requires Enabled(s, a.c) && Enabled(Step(s, a.c, a.op), b.c)
    ensures Runs(s, [a, b]) && After(s, [a, b]) == Step(Step(s, a.c, a.op), b.c, b.op)
  {
    var u := Step(s, a.c, a.op);
    Prefix(u, b, []);
    Prefix(s, a, [b]);
    assert [b] + [] == [b] && [a] + [b] == [a, b];
  }

  lemma {:induction false} OneLoses(s: State, b: nat, c: nat, f: nat, v: int) returns (es: seq<Event>, t: State)
    requires f == StartAt(b) == StartAt(c) && b != c && IsKey(b) && IsKey(c) && s.slots[f].key == FREE
    requires BothIdle(s, b, c)
    ensures Runs(s, es) && After(s, es) == t && c in t.contexts && t.contexts[c].pc == Returned(Aborted)
    ensures t.slots == s.slots[f := t.slots[f]]
  {
    var m := BothChoose(s, b, c, f, v);
    t := OneIsRefused(m, b, c, f, v);
    es := InTurn(b, c, v) + InTurn(b, c, v);
    OneRun(s, InTurn(b, c, v), InTurn(b, c, v));
  }

  /** Not so with others: of two contexts that have chosen the same free entry the later is refused,
      with all entries but one free. */
  lemma {:induction false} LostRace(s: State, v: int) returns (es: seq<Event>)
    requires Initial(s) && 1 in s.contexts && 749 in s.contexts
    ensures Runs(s, es) && 749 in After(s, es).contexts && After(s, es).contexts[749].pc == Returned(Aborted)
    ensures forall a :: 0 <= a < CONTEXTS && a != 441 ==> After(s, es).slots[a].key == FREE
  {
    StartIs(1, 0x0, 0x9e3779b9, 0x7f4a7c15, 0x4f1bbc, 441);
    StartIs(749, 0x1ce, 0xe84f23b9, 0x6ced0971, 0x742791, 441);
    var t;
    es, t := OneLoses(s, 1, 749, 441, v);
  }

  lemma {:induction false} OneRun(s: State, es: seq<Event>, fs: seq<Event>)
    requires Runs(s, es) && Runs(After(s, es), fs)
    ensures Runs(s, es + fs) && After(s, es + fs) == After(After(s, es), fs)
    decreases |es|
  {
    if es == [] {
      assert es + fs == fs;
    } else {
      OneRun(Step(s, es[0].c, es[0].op), es[1..], fs);
      assert (es + fs)[1..] == es[1..] + fs;
    }
  }

  lemma {:induction false} Prefix(s: State, e: Event, es: seq<Event>)
    requires Enabled(s, e.c) && Runs(Step(s, e.c, e.op), es)
    ensures Runs(s, [e] + es) && After(s, [e] + es) == After(Step(s, e.c, e.op), es)
  {
    assert ([e] + es)[1..] == es;
  }
}
