/**
  What a call of `reap` has done when its walk has come to the end of the list: no record is left there of a
  context that had finished when the call began.
*/
module ReapingCollects {
  import opened Options
  import opened Reaping
  import opened ReapingRuns
  import opened ReapingAnswers

  predicate IsPast(s: State, k: nat) { k in s.contexts && Past(s.contexts[k].life) }

  lemma StaysPast(s: State, e: Event, k: nat)
    requires Enabled(s, e) && IsPast(s, k)
    ensures IsPast(Apply(s, e), k)
  {
    if e.Run? && !s.contexts[e.c].pc.Outside? { CloningKeepsLife(s, e.c, e.got, k); }
  }

  /** None of the first entries of the list is the record of such a context. */
  ghost predicate NoneOf(s: State, k: nat, i: nat) {
    i <= |s.list| && forall j :: 0 <= j < i ==> !Has(s, k, s.list[j])
  }

  /** The walk of a context has come past no such record, and its end is the end of the list. */
  ghost predicate Clean(s: State, c: nat, k: nat) {
    && c in s.contexts
    && (s.contexts[c].pc.Walking? ==> NoneOf(s, k, Position(s.list, s.contexts[c].pc.p)))
    && (s.contexts[c].pc.Swept? ==> NoneOf(s, k, |s.list|))
  }

  /** A look that does not unlink leaves the records, and comes a place further or to the end. */
  lemma LookLeaves(s: State, c: nat, i: nat)
    requires Chain(s.heap, s.head, s.list) && c in s.contexts && s.contexts[c].pc.Walking?
    requires Stands(s, s.contexts[c].pc.p, i) && (i < |s.list| ==> !s.heap[s.list[i]].finished)
    ensures var t := Look(s, c, s.contexts[c].pc.p);
      && t.heap == s.heap && t.list == s.list && c in t.contexts
      && t.contexts[c].pc == if i == |s.list| then Swept else Walking(Next(s.list[i]))
  {
    StandsLoads(s, s.contexts[c].pc.p, i);
  }

  lemma {:induction false} SweptFurther(s: State, t: State, c: nat, k: nat, i: nat)
    requires t.heap == s.heap && t.list == s.list && Distinct(s.list) && NoneOf(s, k, i) && c in t.contexts
    requires t.contexts[c].pc == if i == |s.list| then Swept else Walking(Next(s.list[i]))
    requires i < |s.list| ==> !Has(s, k, s.list[i])
    ensures Clean(t, c, k)
  {
    if i < |s.list| { IndexIsTheIndex(s.list, i); }
  }

  lemma {:induction false} LookSweeps(s: State, c: nat, k: nat)
    requires Chain(s.heap, s.head, s.list) && Tasks(s) && Sane(s)
    requires IsPast(s, k) && c in s.contexts && s.contexts[c].pc.Walking? && Clean(s, c, k)
    ensures Clean(Look(s, c, s.contexts[c].pc.p), c, k)
  {
    var i := StandsSomewhere(s, c);
    var p := s.contexts[c].pc.p;
    StandsAtPosition(s, p, i);
    LookResult(s, c, i);
    if i == |s.list| || !s.heap[s.list[i]].finished {
      LookLeaves(s, c, i);
      if i < |s.list| { NotFinished(s, k, s.list[i]); }
      SweptFurther(s, Look(s, c, p), c, k, i);
    }
  }

  lemma NotFinished(s: State, k: nat, x: nat)
    requires Tasks(s) && IsPast(s, k)
    ensures Has(s, k, x) ==> s.heap[x].finished
  {
  }

  /** What a context walks, another does not change. */
  lemma OtherLeavesList(s: State, e: Event, c: nat)
    requires Chain(s.heap, s.head, s.list) && Sane(s) && Locked(s) && Enabled(s, e)
    requires c in s.contexts && s.contexts[c].pc.Walking? && e.c != c
    ensures Apply(s, e).list == s.list
  {
    assert s.holder == Some(c);
    StepOnList(s, e);
  }

  lemma NoneMore(s: State, e: Event, k: nat, i: nat)
    requires Enabled(s, e) && k in s.contexts && NoneOf(s, k, i) && Apply(s, e).list == s.list
    ensures NoneOf(Apply(s, e), k, i)
  {
    forall j | 0 <= j < i ensures !Has(Apply(s, e), k, s.list[j]) { NoNewRecord(s, e, k, s.list[j]); }
  }

  lemma OtherSweeps(s: State, e: Event, c: nat, k: nat)
    requires Chain(s.heap, s.head, s.list) && Sane(s) && Locked(s) && Enabled(s, e) && IsPast(s, k)
    requires c in s.contexts && InReap(s.contexts[c].pc) && Clean(s, c, k) && e.c != c
    ensures Clean(Apply(s, e), c, k)
  {
    OthersStand(s, e, c);
    if s.contexts[c].pc.Walking? {
      OtherLeavesList(s, e, c);
      NoneMore(s, e, k, Position(s.list, s.contexts[c].pc.p));
    }
  }

  lemma OwnSweeps(s: State, c: nat, got: Option<nat>, k: nat)
    requires Chain(s.heap, s.head, s.list) && Tasks(s) && Sane(s) && Enabled(s, Run(c, got)) && IsPast(s, k)
    requires InReap(s.contexts[c].pc) && Clean(s, c, k)
    ensures Clean(Apply(s, Run(c, got)), c, k)
  {
    if s.contexts[c].pc.Walking? { LookSweeps(s, c, k); }
  }

  /** A run in which a context is in `reap` until the last step. */
  ghost predicate ReapsOn(s: State, es: seq<Event>, c: nat)
    decreases |es|
  {
    es != [] ==>
      && Enabled(s, es[0]) && c in s.contexts && InReap(s.contexts[c].pc)
      && ReapsOn(Apply(s, es[0]), es[1..], c)
  }

  lemma {:induction false} IsPossible(s: State, es: seq<Event>, c: nat)
    requires ReapsOn(s, es, c)
    ensures Possible(s, es)
    decreases |es|
  {
    if es != [] { IsPossible(Apply(s, es[0]), es[1..], c); }
  }

  lemma StepSweeps(s: State, e: Event, c: nat, k: nat)
    requires Inv(s) && Enabled(s, e) && IsPast(s, k) && c in s.contexts && InReap(s.contexts[c].pc) && Clean(s, c, k)
    ensures Inv(Apply(s, e)) && IsPast(Apply(s, e), k) && Clean(Apply(s, e), c, k)
  {
    StepKeepsInv(s, e);
    StaysPast(s, e, k);
    if e.c == c { OwnSweeps(s, c, e.got, k); } else { OtherSweeps(s, e, c, k); }
  }

  lemma {:induction false} RunSweeps(s: State, es: seq<Event>, c: nat, k: nat)
    requires Inv(s) && ReapsOn(s, es, c) && IsPast(s, k) && Clean(s, c, k)
    ensures Possible(s, es) && Inv(After(s, es)) && IsPast(After(s, es), k) && Clean(After(s, es), c, k)
    decreases |es|
  {
    if es != [] {
      StepSweeps(s, es[0], c, k);
      RunSweeps(Apply(s, es[0]), es[1..], c, k);
    }
  }

  /** When a call of `reap` is through with the list, the record of a context that had finished before the call is on
      it no more: that context has been waited for, or another has its record in hand to do so. */
  lemma {:induction false} CollectedByThen(s: State, es: seq<Event>, c: nat, k: nat)
    requires Reachable(s) && c in s.contexts && s.contexts[c].pc.Entering? && ReapsOn(s, es, c)
    requires k in s.contexts && Past(s.contexts[k].life)
    ensures Possible(s, es) && c in After(s, es).contexts
    ensures var t := After(s, es);
      t.contexts[c].pc.Swept? ==>
        && (forall x :: x in t.list ==> !Has(t, k, x))
        && (k in t.joined || exists d, x :: Owned(t, d, x) && Has(t, k, x))
  {
    ReachableInv(s);
    RunSweeps(s, es, c, k);
    Gone(After(s, es), c, k);
  }

  lemma Gone(t: State, c: nat, k: nat)
    requires Inv(t) && IsPast(t, k) && Clean(t, c, k)
    ensures t.contexts[c].pc.Swept? ==>
      && (forall x :: x in t.list ==> !Has(t, k, x))
      && (k in t.joined || exists d, x :: Owned(t, d, x) && Has(t, k, x))
  {
    if t.contexts[c].pc.Swept? {
      forall x | x in t.list ensures !Has(t, k, x) { assert exists j :: 0 <= j < |t.list| && t.list[j] == x; }
    }
  }
}
