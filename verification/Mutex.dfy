/**
  The three-state lock of the descriptor table (`okm_mutex_lock`, `okm_mutex_unlock`),
  as a protocol over any number of contexts.

  The word is 0 while no context has the lock, 1 while one has, and 2 while moreover one may sleep
  upon it. Every atomic access to the
  word is one step, and so is every call to the environment. The environment promises of
  its wait that it compares the word and sleeps in one action, and of its wake that it
  ends the sleep of one sleeper where there is one. It promises nothing else: a wait may
  end on its own, and may be refused.
*/
module Mutex {

  const SPINS: nat := 64

  /** Where a context stands in `okm_mutex_lock`, between its two calls, or in `okm_mutex_unlock`. */
  datatype Pc =
    | Idle
    | Fast                 // about to make the first compare-and-exchange
    | Look(i: nat)         // about to load the word for the i-th time
    | Take(i: nat)         // the i-th load saw zero; about to compare and exchange
    | Exchange             // about to exchange the word with 2
    | Waiting              // the exchange did not see zero; about to wait upon 2
    | Sleeping
    | Held
    | Owes                 // the release saw 2; about to wake one sleeper

  datatype State = State(word: nat, pc: seq<Pc>)

  datatype Event =
    | Call(t: nat)             // a context outside asks for the lock
    | Run(t: nat)              // a context takes its next step
    | Wake(t: nat, u: nat)     // the wake that `t` owes ends the sleep of `u`
    | Returns(t: nat)          // a sleep ends on its own
    | Refused(t: nat)          // the environment has no wait; the context yields

  /** The next step of one context that is neither outside nor asleep, on the word alone. */
  function Local(word: nat, p: Pc): (nat, Pc)
    requires p != Idle && p != Sleeping
  {
    match p
    case Fast => if word == 0 then (1, Held) else (word, Look(0))
    case Look(i) =>
      if i >= SPINS then (word, Exchange)
      else if word == 0 then (word, Take(i))
      else (word, Look(i + 1))
    case Take(i) => if word == 0 then (1, Held) else (word, Look(i + 1))
    case Exchange => (2, if word == 0 then Held else Waiting)
    case Waiting => (word, if word == 2 then Sleeping else Exchange)
    case Held => (0, if word == 2 then Owes else Idle)
    case Owes => (word, Idle)
  }

  ghost predicate At(s: State, t: nat, p: Pc) {
    t < |s.pc| && s.pc[t] == p
  }

  ghost predicate Enabled(s: State, e: Event) {
    match e
    case Call(t) => At(s, t, Idle)
    case Run(t) =>
      && t < |s.pc| && s.pc[t] != Idle && s.pc[t] != Sleeping
      && (s.pc[t] == Owes ==> forall u :: !At(s, u, Sleeping))
    case Wake(t, u) => At(s, t, Owes) && At(s, u, Sleeping)
    case Returns(t) => At(s, t, Sleeping)
    case Refused(t) => At(s, t, Waiting)
  }

  ghost function Apply(s: State, e: Event): State
    requires Enabled(s, e)
  {
    match e
    case Call(t) => s.(pc := s.pc[t := Fast])
    case Run(t) =>
      var (w, p) := Local(s.word, s.pc[t]);
      State(w, s.pc[t := p])
    case Wake(t, u) => s.(pc := s.pc[t := Idle][u := Exchange])
    case Returns(t) => s.(pc := s.pc[t := Exchange])
    case Refused(t) => s.(pc := s.pc[t := Exchange])
  }

  ghost predicate Init(s: State) {
    s.word == 0 && forall t :: 0 <= t < |s.pc| ==> s.pc[t] == Idle
  }

  /** The state after a sequence of events, each enabled where it happens. */
  ghost predicate Runs(s: State, events: seq<Event>)
    decreases |events|
  {
    events == [] || (Enabled(s, events[0]) && Runs(Apply(s, events[0]), events[1..]))
  }

  ghost function After(s: State, events: seq<Event>): State
    requires Runs(s, events)
    decreases |events|
  {
    if events == [] then s else After(Apply(s, events[0]), events[1..])
  }

  ghost predicate Exclusive(s: State) {
    forall t, u :: At(s, t, Held) && At(s, u, Held) ==> t == u
  }

  /** Someone will end the sleep of a sleeper: the next release, a wake that is owed, or
      a contender that is about to mark the word. */
  ghost predicate WakeIsComing(s: State) {
    s.word == 2 || (exists t :: At(s, t, Owes)) || (exists t :: At(s, t, Exchange))
  }

  /** One holder at most, and the word says whether there is one. */
  ghost predicate WordTells(s: State) {
    s.word <= 2 && Exclusive(s) && (s.word == 0 <==> forall t :: !At(s, t, Held))
  }

  ghost predicate NoneForgotten(s: State) {
    (exists t :: At(s, t, Sleeping)) ==> WakeIsComing(s)
  }

  ghost predicate Counting(s: State) {
    forall t :: 0 <= t < |s.pc| ==> (s.pc[t].Look? ==> s.pc[t].i <= SPINS) && (s.pc[t].Take? ==> s.pc[t].i < SPINS)
  }

  ghost predicate Inv(s: State) {
    WordTells(s) && NoneForgotten(s) && Counting(s)
  }

  /** A step changes one program counter, and a wake another. */
  lemma OthersStand(s: State, e: Event, p: Pc)
    requires Enabled(s, e)
    ensures forall u :: u != e.t && !(e.Wake? && u == e.u) ==> (At(Apply(s, e), u, p) <==> At(s, u, p))
  {
  }

  lemma WordStillTells(s: State, e: Event)
    requires WordTells(s) && Enabled(s, e)
    ensures WordTells(Apply(s, e))
  {
    var s' := Apply(s, e);
    OthersStand(s, e, Held);
    assert At(s, e.t, Held) <==> s.pc[e.t] == Held;
    assert At(s', e.t, Held) <==> s'.pc[e.t] == Held;
    if e.Wake? { assert !At(s, e.u, Held) && !At(s', e.u, Held); }
  }

  lemma NoneIsForgotten(s: State, e: Event)
    requires NoneForgotten(s) && WordTells(s) && Enabled(s, e)
    ensures NoneForgotten(Apply(s, e))
  {
    var s' := Apply(s, e);
    if u :| At(s', u, Sleeping) {
      if s'.word != 2 {
        OthersStand(s, e, Owes);
        OthersStand(s, e, Exchange);
        OthersStand(s, e, Sleeping);
        assert At(s', e.t, s'.pc[e.t]) && At(s, e.t, s.pc[e.t]);
        if e.Wake? { assert At(s', e.u, Exchange); }
      }
    }
  }

  /** A step of any context keeps the word, the holder and the coming wake in agreement. */
  lemma StepKeepsInv(s: State, e: Event)
    requires Inv(s) && Enabled(s, e)
    ensures Inv(Apply(s, e))
  {
    WordStillTells(s, e);
    NoneIsForgotten(s, e);
  }

  lemma {:induction false} ReachableInv(s: State, events: seq<Event>)
    requires Inv(s) && Runs(s, events)
    ensures Inv(After(s, events))
    decreases |events|
  {
    if events != [] {
      StepKeepsInv(s, events[0]);
      ReachableInv(Apply(s, events[0]), events[1..]);
    }
  }

  /** Whatever the interleaving and however many contexts there are, at most one holds the
      lock, the word says whether one does, and no sleeper is forgotten. */
  lemma {:induction false} MutualExclusion(s: State, events: seq<Event>)
    requires Init(s) && Runs(s, events)
    ensures var z := After(s, events);
            && Exclusive(z)
            && (z.word == 0 <==> forall t :: !At(z, t, Held))
            && ((exists t :: At(z, t, Sleeping)) ==> WakeIsComing(z))
  {
    ReachableInv(s, events);
  }

  ghost predicate AllIdle(s: State) {
    forall t :: 0 <= t < |s.pc| ==> s.pc[t] == Idle
  }

  /** A step of a context already inside, or the wake it owes: no new caller, no sleep that
      ends by luck, no refusal. */
  predicate Own(e: Event) { e.Run? || e.Wake? }

  /** Where someone is inside, someone is awake. */
  lemma SomeoneIsAwake(s: State) returns (t: nat)
    requires Inv(s) && !AllIdle(s)
    ensures t < |s.pc| && s.pc[t] != Idle && s.pc[t] != Sleeping
  {
    t :| 0 <= t < |s.pc| && s.pc[t] != Idle;
    if s.pc[t] == Sleeping {
      assert At(s, t, Sleeping);
      if u :| At(s, u, Held) || At(s, u, Owes) || At(s, u, Exchange) { t := u; }
    }
  }

  /** No reachable state is stuck. In particular a free lock with a sleeper has a context
      that can move without any help from a new caller. */
  lemma NoDeadlock(s: State)
    requires Inv(s) && !AllIdle(s)
    ensures exists e :: Own(e) && Enabled(s, e)
  {
    var t := SomeoneIsAwake(s);
    if s.pc[t] == Owes && exists u :: At(s, u, Sleeping) {
      var u :| At(s, u, Sleeping);
      assert Own(Wake(t, u)) && Enabled(s, Wake(t, u));
    } else {
      assert Own(Run(t)) && Enabled(s, Run(t));
    }
  }

  // ----- how long the contexts inside can go on for -----

  /** A bound on the steps a context may still take on its own account. `calm` says that the
      word is 2, `n` is the number of contexts. A release may disturb every waiter, so what
      a holder weighs grows with their number. */
  function Weight(p: Pc, calm: bool, n: nat): nat {
    var c := 2 * n + 6;
    match p
    case Idle => 0
    case Owes => 3
    case Held => 2 * n + 5
    case Sleeping => c
    case Waiting => if calm then c + 1 else c + 3
    case Exchange => c + 2
    case Take(i) => if i < SPINS then c + 2 + 2 * (SPINS - i) else c + 2
    case Look(i) => if i < SPINS then c + 3 + 2 * (SPINS - i) else c + 3
    case Fast => c + 4 + 2 * SPINS
  }

  function Total(pc: seq<Pc>, calm: bool, n: nat): nat {
    if pc == [] then 0 else Weight(pc[0], calm, n) + Total(pc[1..], calm, n)
  }

  function Potential(s: State): nat {
    Total(s.pc, s.word == 2, |s.pc|) + if s.word == 2 then 0 else 1
  }

  lemma {:induction false} TotalUpdate(pc: seq<Pc>, t: nat, p: Pc, calm: bool, n: nat)
    requires t < |pc|
    ensures Total(pc[t := p], calm, n) == Total(pc, calm, n) - Weight(pc[t], calm, n) + Weight(p, calm, n)
  {
    if t == 0 {
      assert pc[t := p][1..] == pc[1..];
    } else {
      assert pc[t := p][1..] == pc[1..][t - 1 := p];
      TotalUpdate(pc[1..], t - 1, p, calm, n);
    }
  }

  lemma {:induction false} TotalCalm(pc: seq<Pc>, n: nat)
    ensures Total(pc, true, n) <= Total(pc, false, n) <= Total(pc, true, n) + 2 * |pc|
  {
    if pc != [] { TotalCalm(pc[1..], n); }
  }

  /** A context's step uses up more than what it may give the others back. */
  lemma LocalSpends(word: nat, p: Pc, n: nat)
    requires p != Idle && p != Sleeping && (p == Held ==> word != 0)
    requires (p.Look? ==> p.i <= SPINS) && (p.Take? ==> p.i < SPINS)
    ensures var (w, q) := Local(word, p);
      Weight(q, w == 2, n) + (if w == 2 then 0 else 1) + (if word == 2 && w != 2 then 2 * n else 0)
        < Weight(p, w == 2, n) + if word == 2 then 0 else 1
  {
  }

  lemma OwnStepsAreSpent(s: State, e: Event)
    requires Inv(s) && Own(e) && Enabled(s, e)
    ensures Potential(Apply(s, e)) < Potential(s)
  {
    var n, calm := |s.pc|, s.word == 2;
    if e.Run? {
      assert At(s, e.t, s.pc[e.t]);
      LocalSpends(s.word, s.pc[e.t], n);
      TotalUpdate(s.pc, e.t, Local(s.word, s.pc[e.t]).1, Local(s.word, s.pc[e.t]).0 == 2, n);
      TotalCalm(s.pc, n);
    } else {
      TotalUpdate(s.pc, e.t, Idle, calm, n);
      TotalUpdate(s.pc[e.t := Idle], e.u, Exchange, calm, n);
    }
  }

  /** From any reachable state, however the contexts inside are scheduled, they can take only
      so many steps before every one of them has left: nobody spins or sleeps for ever. */
  lemma {:induction false} OwnRunsAreBounded(s: State, events: seq<Event>)
    requires Inv(s) && Runs(s, events) && forall e :: e in events ==> Own(e)
    ensures |events| <= Potential(s)
    decreases |events|
  {
    if events != [] {
      OwnStepsAreSpent(s, events[0]);
      StepKeepsInv(s, events[0]);
      OwnRunsAreBounded(Apply(s, events[0]), events[1..]);
    }
  }

  /** A run of the contexts inside that cannot be continued has emptied the lock. */
  lemma {:induction false} MaximalRunEndsIdle(s: State, events: seq<Event>)
    requires Inv(s) && Runs(s, events) && forall e :: e in events ==> Own(e)
    requires forall e :: Own(e) ==> !Enabled(After(s, events), e)
    ensures AllIdle(After(s, events)) && After(s, events).word == 0
  {
    var z := After(s, events);
    ReachableInv(s, events);
    if !AllIdle(z) { NoDeadlock(z); }
  }

  /** A context that asked for the lock does not come back outside without having held it. */
  lemma {:induction false} LeavingMeansHavingHeld(s: State, events: seq<Event>, t: nat)
    requires Inv(s) && Runs(s, events) && t < |s.pc|
    requires s.pc[t] != Idle && s.pc[t] != Held && s.pc[t] != Owes
    requires |After(s, events).pc| == |s.pc| && After(s, events).pc[t] == Idle
    ensures exists k :: 0 <= k <= |events| && Runs(s, events[..k]) && At(After(s, events[..k]), t, Held)
    decreases |events|
  {
    var s' := Apply(s, events[0]);
    StepKeepsInv(s, events[0]);
    Unrolled(s, events, 1);
    if s'.pc[t] == Held {
      assert After(s, events[..1]) == s';
      assert At(After(s, events[..1]), t, Held);
    } else {
      LeavingMeansHavingHeld(s', events[1..], t);
      var k :| 0 <= k <= |events[1..]| && Runs(s', events[1..][..k]) && At(After(s', events[1..][..k]), t, Held);
      Unrolled(s, events, k + 1);
      assert At(After(s, events[..k + 1]), t, Held);
    }
  }

  lemma {:induction false} Unrolled(s: State, events: seq<Event>, k: nat)
    requires 1 <= k <= |events| && Enabled(s, events[0]) && Runs(Apply(s, events[0]), events[1..][..k - 1])
    ensures Runs(s, events[..k])
    ensures After(s, events[..k]) == After(Apply(s, events[0]), events[1..][..k - 1])
  {
    assert events[..k][1..] == events[1..][..k - 1];
  }

  /** With no other context inside, taking the lock and giving it back are one step each, and neither calls upon the
      environment. */
  lemma {:induction false} AloneIsTwoSteps(s: State, t: nat)
    requires Init(s) && t < |s.pc|
    ensures var es := [Call(t), Run(t), Run(t)];
      && Runs(s, es) && After(s, es) == s
      && Apply(Apply(s, Call(t)), Run(t)) == State(1, s.pc[t := Held])
  {
    var u := Apply(s, Call(t));
    var v := Apply(u, Run(t));
    assert u.pc[t] == Fast && v == State(1, s.pc[t := Held]);
    assert Apply(v, Run(t)) == s;
    RunsFirst(v, Run(t), []);
    RunsFirst(u, Run(t), [Run(t)]);
    RunsFirst(s, Call(t), [Run(t), Run(t)]);
    assert [Run(t)] + [] == [Run(t)] && [Run(t)] + [Run(t)] == [Run(t), Run(t)];
    assert [Call(t)] + [Run(t), Run(t)] == [Call(t), Run(t), Run(t)];
  }

  lemma {:induction false} RunsFirst(s: State, e: Event, es: seq<Event>)
    requires Enabled(s, e) && Runs(Apply(s, e), es)
    ensures Runs(s, [e] + es) && After(s, [e] + es) == After(Apply(s, e), es)
  {
    assert ([e] + es)[1..] == es;
  }
}
