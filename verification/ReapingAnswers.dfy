/**
  What `__clone` answers with: the identity, read out of the new context's record after the lock has been
  released, when the record is on the list and another context may already have taken and freed it.
*/
module ReapingAnswers {
  import opened Options
  import opened Reaping
  import opened ReapingRuns

  /** The step gives a record back to the environment. */
  predicate GivesBack(s: State, e: Event, x: nat)
    requires Enabled(s, e)
  {
    x in s.heap && x !in Apply(s, e).heap
  }

  ghost predicate FreedIn(s: State, es: seq<Event>, x: nat)
    requires Possible(s, es)
    decreases |es|
  {
    es != [] && (GivesBack(s, es[0], x) || FreedIn(Apply(s, es[0]), es[1..], x))
  }

  /** What a step leaves of a record that has been started: what it says, or nothing. */
  lemma RecordLasts(s: State, e: Event, k: nat, x: nat)
    requires Started(s) && OneOwner(s) && Enabled(s, e) && Has(s, k, x)
    ensures Has(Apply(s, e), k, x) <==> !GivesBack(s, e, x)
  {
    if e.Run? && s.contexts[e.c].pc.Starting? { assert Owned(s, e.c, s.contexts[e.c].pc.t); }
  }

  /** A handle that has been given is given to no other context, so no record is made for it again. */
  lemma NoNewRecord(s: State, e: Event, k: nat, x: nat)
    requires Enabled(s, e) && k in s.contexts && !Has(s, k, x)
    ensures k in Apply(s, e).contexts && !Has(Apply(s, e), k, x)
  {
    if e.Run? && !s.contexts[e.c].pc.Outside? { CloningMakesNone(s, e.c, e.got, k, x); }
  }

  lemma CloningMakesNone(s: State, c: nat, got: Option<nat>, k: nat, x: nat)
    requires Enabled(s, Run(c, got)) && !s.contexts[c].pc.Outside? && k in s.contexts && !Has(s, k, x)
    ensures k in Cloning(s, c, got).contexts && !Has(Cloning(s, c, got), k, x)
  {
    if s.contexts[c].pc.Walking? { LookMakesNone(s, c, s.contexts[c].pc.p, k, x); }
  }

  lemma LookMakesNone(s: State, c: nat, p: Place, k: nat, x: nat)
    requires c in s.contexts && k in s.contexts && !Has(s, k, x)
    ensures k in Look(s, c, p).contexts && !Has(Look(s, c, p), k, x)
  {
  }

  lemma {:induction false} StaysFreed(s: State, es: seq<Event>, k: nat, x: nat)
    requires Possible(s, es) && k in s.contexts && !Has(s, k, x)
    ensures !Has(After(s, es), k, x)
    decreases |es|
  {
    if es != [] {
      NoNewRecord(s, es[0], k, x);
      StaysFreed(Apply(s, es[0]), es[1..], k, x);
    }
  }

  /** What a record's lasting relies upon, at every state of a run. */
  ghost predicate Kept(s: State) { Started(s) && OneOwner(s) }

  ghost predicate KeptRun(s: State, es: seq<Event>)
    requires Possible(s, es)
    decreases |es|
  {
    Kept(s) && (es == [] || KeptRun(Apply(s, es[0]), es[1..]))
  }

  lemma {:induction false} EveryRunIsKept(s: State, es: seq<Event>)
    requires Inv(s) && Possible(s, es)
    ensures KeptRun(s, es)
    decreases |es|
  {
    if es != [] {
      StepKeepsInv(s, es[0]);
      EveryRunIsKept(Apply(s, es[0]), es[1..]);
    }
  }

  /** A step keeps the record or gives it back, and its context stays. */
  ghost predicate KeepsOrFrees(s: State, e: Event, k: nat, x: nat)
    requires Enabled(s, e)
  {
    k in Apply(s, e).contexts && (Has(s, k, x) ==> (Has(Apply(s, e), k, x) <==> !GivesBack(s, e, x)))
  }

  /** Each step of a run does so. */
  ghost predicate Lasting(s: State, es: seq<Event>, k: nat, x: nat)
    requires Possible(s, es)
    decreases |es|
  {
    es == [] || (KeepsOrFrees(s, es[0], k, x) && Lasting(Apply(s, es[0]), es[1..], k, x))
  }

  lemma {:induction false} EveryRunLasts(s: State, es: seq<Event>, k: nat, x: nat)
    requires Possible(s, es) && KeptRun(s, es) && k in s.contexts
    ensures Lasting(s, es, k, x)
    decreases |es|
  {
    if es != [] {
      StepKeepsOrFrees(s, es[0], k, x);
      EveryRunLasts(Apply(s, es[0]), es[1..], k, x);
    }
  }

  lemma StepKeepsOrFrees(s: State, e: Event, k: nat, x: nat)
    requires Kept(s) && Enabled(s, e) && k in s.contexts
    ensures KeepsOrFrees(s, e, k, x)
  {
    if Has(s, k, x) { RecordLasts(s, e, k, x); }
    ContextStays(s, e, k);
  }

  /** The record is there all through a run exactly when no step of the run gives it back. */
  lemma {:induction false} LastsUnlessFreed(s: State, es: seq<Event>, k: nat, x: nat)
    requires Possible(s, es) && Lasting(s, es, k, x) && k in s.contexts && Has(s, k, x)
    ensures Has(After(s, es), k, x) <==> !FreedIn(s, es, x)
    decreases |es|
  {
    if es != [] {
      var t := Apply(s, es[0]);
      if GivesBack(s, es[0], x) { StaysFreed(t, es[1..], k, x); } else { LastsUnlessFreed(t, es[1..], k, x); }
    }
  }

  // --- from the unlock to the answer ---

  lemma {:induction false} OneRun(s: State, es: seq<Event>, fs: seq<Event>)
    requires Possible(s, es) && Possible(After(s, es), fs)
    ensures Possible(s, es + fs) && After(s, es + fs) == After(After(s, es), fs)
    decreases |es|
  {
    if es == [] {
      assert es + fs == fs;
    } else {
      OneRun(Apply(s, es[0]), es[1..], fs);
      assert (es + fs)[1..] == es[1..] + fs;
    }
  }

  lemma {:induction false} StaysReachable(s: State, e: Event)
    requires Reachable(s) && Enabled(s, e)
    ensures Reachable(Apply(s, e))
  {
    var init, es :| Init(init) && Possible(init, es) && After(init, es) == s;
    assert [e][1..] == [];
    assert Possible(Apply(s, e), []) && After(Apply(s, e), []) == Apply(s, e) && Possible(s, [e]);
    OneRun(init, es, [e]);
  }

  /** A context has put its record on the list and is about to release the lock; others step afterwards. */
  ghost predicate Unlocks(s: State, es: seq<Event>, c: nat, x: nat) {
    && Reachable(s) && c in s.contexts && s.contexts[c].pc == Linked(x)
    && Possible(s, [Run(c, None)] + es) && forall i :: 0 <= i < |es| ==> es[i].c != c
  }

  /** The context that the record was made for. */
  function StartedFor(s: State, x: nat): nat {
    var task := At(s.heap, x).task;
    if task.Some? then task.value else 0
  }

  /** The state when the creator is about to read the identity. */
  ghost function Later(s: State, es: seq<Event>, c: nat): State
    requires Possible(s, [Run(c, None)] + es)
  {
    After(s, [Run(c, None)] + es)
  }

  /** A run is its first step and what follows. */
  lemma {:induction false} FirstOf(s: State, e: Event, es: seq<Event>)
    requires Possible(s, [e] + es)
    ensures Enabled(s, e) && Possible(Apply(s, e), es) && After(s, [e] + es) == After(Apply(s, e), es)
  {
    assert ([e] + es)[1..] == es;
  }

  /** The step that releases the lock. */
  lemma Released(s: State, c: nat, x: nat)
    requires c in s.contexts && s.contexts[c].pc == Linked(x) && Enabled(s, Run(c, None))
    requires Chain(s.heap, s.head, s.list) && Started(s) && Sane(s)
    ensures var t := Apply(s, Run(c, None));
      && t == Go(s.(holder := None), c, Answering(x)) && t.contexts[c].pc == Answering(x) && Has(t, StartedFor(s, x), x)
  {
    assert x in s.list && x in s.heap;
  }

  lemma {:induction false} Begins(s: State, es: seq<Event>, c: nat, x: nat)
    requires Unlocks(s, es, c, x)
    ensures var t := Apply(s, Run(c, None));
      && Reachable(t) && Has(t, StartedFor(s, x), x) && Possible(t, es) && Later(s, es, c) == After(t, es)
      && t == Go(s.(holder := None), c, Answering(x)) && t.contexts[c].pc == Answering(x)
  {
    ReachableInv(s);
    FirstOf(s, Run(c, None), es);
    StaysReachable(s, Run(c, None));
    Released(s, c, x);
  }

  lemma {:induction false} Waits(s: State, es: seq<Event>, c: nat)
    requires Possible(s, es) && c in s.contexts && forall i :: 0 <= i < |es| ==> es[i].c != c
    requires s.contexts[c].pc.Answering?
    ensures c in After(s, es).contexts && After(s, es).contexts[c].pc == s.contexts[c].pc
    decreases |es|
  {
    if es != [] {
      OthersKeepIt(s, es[0], c);
      Waits(Apply(s, es[0]), es[1..], c);
    }
  }

  lemma OthersKeepIt(s: State, e: Event, c: nat)
    requires Enabled(s, e) && c in s.contexts && e.c != c
    ensures c in Apply(s, e).contexts && Apply(s, e).contexts[c].pc == s.contexts[c].pc
  {
    OthersStand(s, e, c);
  }

  /** A context is about to read a record that is there, and others step. */
  lemma {:induction false} AnswersAfter(u: State, es: seq<Event>, c: nat, k: nat, x: nat)
    requires Reachable(u) && Possible(u, es) && Has(u, k, x)
    requires c in u.contexts && u.contexts[c].pc == Answering(x) && forall i :: 0 <= i < |es| ==> es[i].c != c
    ensures var t := After(u, es);
      && c in t.contexts && t.contexts[c].pc == Answering(x) && Touches(t, Run(c, None)) == {x}
      && (Has(t, k, x) <==> !FreedIn(u, es, x))
      && (k !in t.joined ==> Has(t, k, x))
      && (k in t.joined && Has(t, k, x) ==> exists d :: Owned(t, d, x) && t.contexts[d].pc == Freeing(x))
  {
    Waits(u, es, c);
    HasUntilFreed(u, es, k, x);
    HasUntilWaited(u, es, k, x);
  }

  lemma {:induction false} HasUntilFreed(u: State, es: seq<Event>, k: nat, x: nat)
    requires Reachable(u) && Possible(u, es) && Has(u, k, x)
    ensures Has(After(u, es), k, x) <==> !FreedIn(u, es, x)
  {
    ReachableInv(u);
    EveryRunIsKept(u, es);
    EveryRunLasts(u, es, k, x);
    LastsUnlessFreed(u, es, k, x);
  }

  /** What is read is the record that was put on the list exactly when no other context has freed it since
      the unlock. It is so as long as its context has not been waited for, and after that only while the
      waiter has yet to free it. */
  lemma {:induction false} AnswersFromItsOwn(s: State, es: seq<Event>, c: nat, x: nat)
    requires Unlocks(s, es, c, x)
    ensures var t, k := Later(s, es, c), StartedFor(s, x);
      && c in t.contexts && t.contexts[c].pc == Answering(x) && Touches(t, Run(c, None)) == {x}
      && (Has(t, k, x) <==> !FreedIn(Apply(s, Run(c, None)), es, x))
      && (k !in t.joined ==> Has(t, k, x))
      && (k in t.joined && Has(t, k, x) ==> exists d :: Owned(t, d, x) && t.contexts[d].pc == Freeing(x))
  {
    var u, k := Apply(s, Run(c, None)), StartedFor(s, x);
    Begins(s, es, c, x);
    AnswersAfter(u, es, c, k, x);
  }

  lemma {:induction false} HasUntilWaited(u: State, es: seq<Event>, k: nat, x: nat)
    requires Reachable(u) && Possible(u, es) && Has(u, k, x)
    ensures var t := After(u, es);
      && (k !in t.joined ==> Has(t, k, x))
      && (k in t.joined && Has(t, k, x) ==> exists d :: Owned(t, d, x) && t.contexts[d].pc == Freeing(x))
  {
    var t := After(u, es);
    ReachableInv(u);
    RunKeepsInv(u, es);
    StaysStarted(u, es, k);
    if k !in t.joined {
      var y :| Has(t, k, y);
      if y != x { StaysFreed(u, es, k, y); }
    }
  }

  lemma {:induction false} StaysStarted(s: State, es: seq<Event>, k: nat)
    requires Possible(s, es) && k in s.contexts && !s.contexts[k].life.First?
    ensures k in After(s, es).contexts && !After(s, es).contexts[k].life.First?
    decreases |es|
  {
    if es != [] {
      ContextStays(s, es[0], k);
      StaysStarted(Apply(s, es[0]), es[1..], k);
    }
  }

  // --- what makes it so ---

  /** A context that runs what it was started for does so until it returns from it. */
  lemma {:induction false} RunsOn(s: State, es: seq<Event>, k: nat, x: nat)
    requires Possible(s, es) && k in s.contexts && s.contexts[k].life == Running(x)
    requires forall i :: 0 <= i < |es| ==> es[i] != Return(k)
    ensures k in After(s, es).contexts && After(s, es).contexts[k].life == Running(x)
    decreases |es|
  {
    if es != [] {
      ContextStays(s, es[0], k);
      RunsOn(Apply(s, es[0]), es[1..], k, x);
    }
  }

  lemma {:induction false} NotWaitedFor(u: State, es: seq<Event>, k: nat, x: nat)
    requires Reachable(u) && Possible(u, es) && k in u.contexts && u.contexts[k].life == Running(x)
    requires forall i :: 0 <= i < |es| ==> es[i] != Return(k)
    ensures k !in After(u, es).joined
  {
    RunsOn(u, es, k, x);
    ReachableInv(u);
    RunKeepsInv(u, es);
  }

  /** The answer is read out of the right record when the new context has not returned before it is. */
  lemma {:induction false} AnswersWhileItRuns(s: State, es: seq<Event>, c: nat, x: nat)
    requires Unlocks(s, es, c, x)
    requires var k := StartedFor(s, x);
      k in s.contexts && s.contexts[k].life == Running(x) && forall i :: 0 <= i < |es| ==> es[i] != Return(k)
    ensures Has(Later(s, es, c), StartedFor(s, x), x) && !FreedIn(Apply(s, Run(c, None)), es, x)
  {
    var u, k := Apply(s, Run(c, None)), StartedFor(s, x);
    AnswersFromItsOwn(s, es, c, x);
    Begins(s, es, c, x);
    NotWaitedFor(u, es, k, x);
  }

  /** No context but one is in a call. */
  ghost predicate OnlyInCall(s: State, c: nat) {
    forall d :: d in s.contexts && d != c ==> s.contexts[d].pc.Outside?
  }

  lemma {:induction false} NoneTakes(s: State, es: seq<Event>, c: nat, x: nat)
    requires Possible(s, es) && OnlyInCall(s, c) && forall i :: 0 <= i < |es| ==> es[i].c != c && !es[i].Call?
    ensures !FreedIn(s, es, x)
    decreases |es|
  {
    if es != [] {
      OutsideFreesNothing(s, es[0], c, x);
      NoneTakes(Apply(s, es[0]), es[1..], c, x);
    }
  }

  lemma OutsideFreesNothing(s: State, e: Event, c: nat, x: nat)
    requires Enabled(s, e) && OnlyInCall(s, c) && e.c != c && !e.Call?
    ensures !GivesBack(s, e, x) && OnlyInCall(Apply(s, e), c)
  {
  }

  /** Or when no other context is in `__clone`, nor calls it, before the answer is read. */
  lemma {:induction false} AnswersWhenAlone(s: State, es: seq<Event>, c: nat, x: nat)
    requires Unlocks(s, es, c, x) && OnlyInCall(s, c) && forall i :: 0 <= i < |es| ==> !es[i].Call?
    ensures Has(Later(s, es, c), StartedFor(s, x), x) && !FreedIn(Apply(s, Run(c, None)), es, x)
  {
    AnswersFromItsOwn(s, es, c, x);
    Begins(s, es, c, x);
    NoneTakes(Apply(s, Run(c, None)), es, c, x);
  }

  // --- and what does not ---

  ghost predicate Leads(s: State, es: seq<Event>, t: State) { Possible(s, es) && After(s, es) == t }

  lemma Then(s: State, es: seq<Event>, t: State, fs: seq<Event>, u: State)
    requires Leads(s, es, t) && Leads(t, fs, u)
    ensures Leads(s, es + fs, u)
  {
    OneRun(s, es, fs);
  }

  lemma Step(s: State, es: seq<Event>, t: State, e: Event)
    requires Leads(s, es, t) && Enabled(t, e)
    ensures Leads(s, es + [e], Apply(t, e))
  {
    assert [e][1..] == [];
    assert Possible(Apply(t, e), []) && Possible(t, [e]);
    Then(s, es, t, [e], Apply(t, e));
  }

  /** Where the two contexts that the program began with are, and the one that the first has started. */
  predicate Stand(s: State, first: Pc, second: Pc, started: Option<Life>) {
    && 0 in s.contexts && s.contexts[0] == Context(First, first)
    && 1 in s.contexts && s.contexts[1] == Context(First, second)
    && (if started.Some? then 5 in s.contexts && s.contexts[5] == Context(started.value, Outside) else 5 !in s.contexts)
  }

  /** The one record there is, and whether it is on the list. */
  predicate Lies(s: State, r: Record, listed: bool) {
    && 10 in s.heap && s.heap[10] == r
    && if listed then s.head == Some(10) && s.list == [10] else s.head == None && s.list == []
  }

  predicate Empty(s: State) { s.heap == map[] && s.head == None && s.list == [] }

  lemma FindsNothing(s: State) returns (es: seq<Event>, t: State)
    requires Stand(s, Outside, Outside, None) && Empty(s) && s.holder == None
    ensures Leads(s, es, t) && Stand(t, Allocating, Outside, None) && Empty(t) && t.holder == None
  {
    es, t := [], s;
    Step(s, es, t, Call(0));
    es, t := es + [Call(0)], Apply(t, Call(0));
    es, t := Runs(s, es, t, 0);
    es, t := Runs(s, es, t, 0);
    es, t := Runs(s, es, t, 0);
  }

  /** One step of a context that asks the environment for nothing. */
  lemma Runs(s: State, es: seq<Event>, t: State, c: nat) returns (fs: seq<Event>, u: State)
    requires Leads(s, es, t) && Enabled(t, Run(c, None))
    ensures Leads(s, fs, u) && u == Apply(t, Run(c, None))
  {
    Step(s, es, t, Run(c, None));
    fs, u := es + [Run(c, None)], Apply(t, Run(c, None));
  }

  lemma MakesRecord(s: State) returns (es: seq<Event>, t: State)
    requires Stand(s, Allocating, Outside, None) && Empty(s) && s.holder == None
    ensures Leads(s, es, t) && Stand(t, Starting(10), Outside, None) && Lies(t, Record(None, false, None), false)
    ensures t.holder == None
  {
    es, t := [], s;
    Step(s, es, t, Run(0, Some(10)));
    es, t := es + [Run(0, Some(10))], Apply(t, Run(0, Some(10)));
    es, t := Runs(s, es, t, 0);
    es, t := Runs(s, es, t, 0);
  }

  lemma StartsContext(s: State) returns (es: seq<Event>, t: State)
    requires Stand(s, Starting(10), Outside, None) && Lies(s, Record(None, false, None), false) && s.holder == None
    ensures Leads(s, es, t) && Stand(t, Linked(10), Outside, Some(Running(10)))
    ensures Lies(t, Record(Some(5), false, None), true)
    ensures t.holder == Some(0)
  {
    es, t := [], s;
    Step(s, es, t, Run(0, Some(5)));
    es, t := es + [Run(0, Some(5))], Apply(t, Run(0, Some(5)));
    es, t := Runs(s, es, t, 0);
    es, t := Runs(s, es, t, 0);
  }

  lemma UnlocksAndEnds(s: State) returns (es: seq<Event>, t: State)
    requires Stand(s, Linked(10), Outside, Some(Running(10))) && Lies(s, Record(Some(5), false, None), true)
    requires s.holder == Some(0)
    ensures Leads(s, es, t) && Stand(t, Answering(10), Outside, Some(Ended))
    ensures Lies(t, Record(Some(5), true, None), true)
    ensures t.holder == None
  {
    es, t := Runs(s, [], s, 0);
    Step(s, es, t, Return(5));
    es, t := es + [Return(5)], Apply(t, Return(5));
    es, t := Runs(s, es, t, 5);
    es, t := Runs(s, es, t, 5);
    es, t := Runs(s, es, t, 5);
  }

  lemma OtherTakes(s: State) returns (es: seq<Event>, t: State)
    requires Stand(s, Answering(10), Outside, Some(Ended)) && Lies(s, Record(Some(5), true, None), true)
    requires s.holder == None
    ensures Leads(s, es, t) && Stand(t, Answering(10), Taken(10), Some(Ended))
    ensures Lies(t, Record(Some(5), true, None), false)
  {
    es, t := [], s;
    Step(s, es, t, Call(1));
    es, t := es + [Call(1)], Apply(t, Call(1));
    es, t := Runs(s, es, t, 1);
    assert Without([10], 10) == [];
    es, t := Runs(s, es, t, 1);
  }

  lemma OtherFrees(s: State) returns (es: seq<Event>, t: State)
    requires Stand(s, Answering(10), Taken(10), Some(Ended)) && Lies(s, Record(Some(5), true, None), false)
    ensures Leads(s, es, t) && Stand(t, Answering(10), Entering, Some(Ended)) && 10 !in t.heap
  {
    es, t := Runs(s, [], s, 1);
    es, t := Runs(s, es, t, 1);
    es, t := Runs(s, es, t, 1);
  }

  /** Here the new context ends and another frees its record before the creator has answered: what is read
      is not allocated. */
  lemma AnswerFromFreed(s: State) returns (es: seq<Event>)
    requires Init(s) && 0 in s.contexts && 1 in s.contexts && 5 !in s.contexts
    ensures Possible(s, es)
    ensures var t := After(s, es);
      Enabled(t, Run(0, None)) && Answers(t, Run(0, None)) && Touches(t, Run(0, None)) == {10} && 10 !in t.heap
  {
    var e1, s1 := FindsNothing(s);
    var e2, s2 := MakesRecord(s1);
    Then(s, e1, s1, e2, s2);
    var e3, s3 := StartsContext(s2);
    Then(s, e1 + e2, s2, e3, s3);
    var e4, s4 := UnlocksAndEnds(s3);
    Then(s, e1 + e2 + e3, s3, e4, s4);
    var e5, s5 := OtherTakes(s4);
    Then(s, e1 + e2 + e3 + e4, s4, e5, s5);
    var e6, s6 := OtherFrees(s5);
    es := e1 + e2 + e3 + e4 + e5 + e6;
    Then(s, e1 + e2 + e3 + e4 + e5, s5, e6, s6);
  }
}
