/**
  Whole runs of the protocol of `Reaping`: no context is waited for twice, nor before it has said it is
  done, a record is freed at most once and not touched when it is free (but see `ReapingAnswers`), no
  context waits for ever or is lost, and one call of `reap` takes a bounded number of steps.
*/
module ReapingRuns {
  import opened Options
  import opened Reaping

  /** The program begins with contexts it did not start, none in a call. */
  ghost predicate Init(s: State) {
    && s.heap == map[] && s.head == None && s.holder == None && s.joined == [] && s.list == []
    && forall c :: c in s.contexts ==> s.contexts[c] == Context(First, Outside)
  }

  ghost predicate Possible(s: State, es: seq<Event>)
    decreases |es|
  {
    es == [] || (Enabled(s, es[0]) && Possible(Apply(s, es[0]), es[1..]))
  }

  ghost function After(s: State, es: seq<Event>): State
    requires Possible(s, es)
    decreases |es|
  {
    if es == [] then s else After(Apply(s, es[0]), es[1..])
  }

  ghost predicate Reachable(s: State) {
    exists init, es :: Init(init) && Possible(init, es) && After(init, es) == s
  }

  lemma {:induction false} RunKeepsInv(s: State, es: seq<Event>)
    requires Inv(s) && Possible(s, es)
    ensures Inv(After(s, es))
    decreases |es|
  {
    if es != [] {
      StepKeepsInv(s, es[0]);
      RunKeepsInv(Apply(s, es[0]), es[1..]);
    }
  }

  lemma InitInv(s: State)
    requires Init(s)
    ensures Inv(s)
  {
  }

  lemma {:induction false} RunComesTo(s: State, es: seq<Event>, t: State)
    requires Inv(s) && Possible(s, es) && After(s, es) == t
    ensures Inv(t)
  {
    RunKeepsInv(s, es);
  }

  lemma ReachableInv(s: State)
    requires Reachable(s)
    ensures Inv(s)
  {
    var init, es :| Init(init) && Possible(init, es) && After(init, es) == s;
    InitInv(init);
    RunComesTo(init, es, s);
  }

  // --- what a step leaves alone ---

  /** A step moves no other context. */
  lemma OthersStand(s: State, e: Event, d: nat)
    requires Enabled(s, e) && d in s.contexts && d != e.c
    ensures d in Apply(s, e).contexts && Apply(s, e).contexts[d] == s.contexts[d]
  {
    if e.Run? && !s.contexts[e.c].pc.Outside? { CloningKeepsOthers(s, e.c, e.got, d); }
  }

  lemma CloningKeepsOthers(s: State, c: nat, got: Option<nat>, d: nat)
    requires Enabled(s, Run(c, got)) && !s.contexts[c].pc.Outside? && d in s.contexts && d != c
    ensures d in Cloning(s, c, got).contexts && Cloning(s, c, got).contexts[d] == s.contexts[d]
  {
    if s.contexts[c].pc.Walking? { LookKeepsOthers(s, c, s.contexts[c].pc.p, d); }
  }

  lemma LookKeepsOthers(s: State, c: nat, p: Place, d: nat)
    requires c in s.contexts && d in s.contexts && d != c
    ensures d in Look(s, c, p).contexts && Look(s, c, p).contexts[d] == s.contexts[d]
  {
  }

  /** A context that runs what it was started for does so until it returns from it. */
  lemma ContextStays(s: State, e: Event, k: nat)
    requires Enabled(s, e) && k in s.contexts
    ensures k in Apply(s, e).contexts && (Apply(s, e).contexts[k].life.First? <==> s.contexts[k].life.First?)
    ensures s.contexts[k].life.Running? && e != Return(k) ==> Apply(s, e).contexts[k].life == s.contexts[k].life
  {
    if e.Run? && !s.contexts[e.c].pc.Outside? { CloningKeepsLife(s, e.c, e.got, k); }
  }

  lemma CloningKeepsLife(s: State, c: nat, got: Option<nat>, k: nat)
    requires Enabled(s, Run(c, got)) && !s.contexts[c].pc.Outside? && k in s.contexts
    ensures k in Cloning(s, c, got).contexts && Cloning(s, c, got).contexts[k].life == s.contexts[k].life
  {
    if s.contexts[c].pc.Walking? { LookKeepsLife(s, c, s.contexts[c].pc.p, k); }
  }

  lemma LookKeepsLife(s: State, c: nat, p: Place, k: nat)
    requires c in s.contexts && k in s.contexts
    ensures k in Look(s, c, p).contexts && Look(s, c, p).contexts[k].life == s.contexts[k].life
  {
  }

  // --- once, and after ---

  /** No context is waited for twice, and one that has been waited for has ended. */
  lemma JoinedOnce(s: State)
    requires Reachable(s)
    ensures forall i, j :: 0 <= i < j < |s.joined| ==> s.joined[i] != s.joined[j]
    ensures forall k :: k in s.joined ==> k in s.contexts && s.contexts[k].life == Ended
  {
    ReachableInv(s);
  }

  /** A wait is begun only for a context that has marked its record and that no one has waited for. */
  lemma JoinedAfterFinished(s: State, c: nat, x: nat)
    requires Reachable(s) && c in s.contexts && (s.contexts[c].pc == Joining(x) || s.contexts[c].pc == Taken(x))
    ensures x in s.heap && s.heap[x].finished && s.heap[x].task.Some?
    ensures var k := s.heap[x].task.value; k !in s.joined && k in s.contexts && Past(s.contexts[k].life)
  {
    ReachableInv(s);
    assert Owned(s, c, x);
    assert Has(s, s.heap[x].task.value, x);
  }

  /** A record is freed when no context was started for it, or when the one that was has been waited for. */
  lemma FreedAfterJoin(s: State, e: Event, x: nat)
    requires Reachable(s) && Enabled(s, e) && x in s.heap && x !in Apply(s, e).heap
    ensures s.heap[x].task.None? || s.heap[x].task.value in s.joined
    ensures x !in s.list && forall k :: k in s.contexts ==> !Uses(s.contexts[k].life, x)
    ensures forall d :: Owned(s, d, x) ==> d == e.c
  {
    ReachableInv(s);
    FreesItsOwn(s, e, x);
    OwnedIsFree(s, e.c, x);
  }

  lemma FreesItsOwn(s: State, e: Event, x: nat)
    requires Enabled(s, e) && x in s.heap && x !in Apply(s, e).heap
    ensures var pc := s.contexts[e.c].pc; pc == Freeing(x) || pc == Discarding(x)
  {
  }

  /** What a context that is about to free a record knows of it. */
  lemma OwnedIsFree(s: State, c: nat, x: nat)
    requires OneOwner(s) && Started(s) && Tasks(s) && Waited(s) && x in s.heap
    requires c in s.contexts && (s.contexts[c].pc == Freeing(x) || s.contexts[c].pc == Discarding(x))
    ensures s.heap[x].task.None? || s.heap[x].task.value in s.joined
    ensures x !in s.list && forall k :: k in s.contexts ==> !Uses(s.contexts[k].life, x)
    ensures forall d :: Owned(s, d, x) ==> d == c
  {
    assert Owned(s, c, x);
    assert forall k :: k in s.contexts && Uses(s.contexts[k].life, x) ==> Has(s, k, x);
  }

  lemma WalkTouches(s: State, e: Event)
    requires Chain(s.heap, s.head, s.list) && Sane(s) && Enabled(s, e) && e.Run? && s.contexts[e.c].pc.Walking?
    ensures Touches(s, e) <= s.heap.Keys
  {
    var i := StandsSomewhere(s, e.c);
    StandsLoads(s, s.contexts[e.c].pc.p, i);
  }

  /** The step reads the identity of the context just started out of its record, the lock released. */
  predicate Answers(s: State, e: Event) { e.Run? && e.c in s.contexts && s.contexts[e.c].pc.Answering? }

  /** No other step of any context touches a record that has been freed, and so none is freed twice. */
  lemma TouchesOnlyAllocated(s: State, e: Event)
    requires Reachable(s) && Enabled(s, e) && !Answers(s, e)
    ensures Touches(s, e) <= s.heap.Keys
  {
    ReachableInv(s);
    if e.Run? && s.contexts[e.c].pc.Walking? { WalkTouches(s, e); } else { OwnTouches(s, e); }
  }

  lemma OwnTouches(s: State, e: Event)
    requires OneOwner(s) && Tasks(s) && Enabled(s, e) && !Answers(s, e) && !(e.Run? && s.contexts[e.c].pc.Walking?)
    ensures Touches(s, e) <= s.heap.Keys
  {
    var me := s.contexts[e.c];
    forall a | a in Touches(s, e) ensures a in s.heap {
      TouchesItsOwn(s, e, a);
      assert Owns(me.pc, a) ==> Owned(s, e.c, a);
      assert Uses(me.life, a) ==> Has(s, e.c, a);
    }
  }

  lemma TouchesItsOwn(s: State, e: Event, a: nat)
    requires Enabled(s, e) && !Answers(s, e) && !(e.Run? && s.contexts[e.c].pc.Walking?) && a in Touches(s, e)
    ensures Owns(s.contexts[e.c].pc, a) || Uses(s.contexts[e.c].life, a)
  {
  }

  // --- nothing is lost ---

  /** Every context that was started has been waited for, or has one record, which is on the list or which
      one context has to itself. */
  lemma NothingLost(s: State, k: nat)
    requires Reachable(s) && k in s.contexts && !s.contexts[k].life.First?
    ensures k in s.joined || exists x :: Has(s, k, x) && (x in s.list || exists c :: Owned(s, c, x))
    ensures forall x, y :: Has(s, k, x) && Has(s, k, y) ==> x == y
  {
    ReachableInv(s);
    if k !in s.joined {
      var x :| Has(s, k, x);
      assert x in s.list || exists c :: Owned(s, c, x);
    }
  }

  /** When no context is in a call, what is allocated is exactly the list, and a context that was started is
      on it exactly when it has not been waited for. */
  lemma WhenQuiet(s: State)
    requires Reachable(s) && forall c :: c in s.contexts ==> s.contexts[c].pc.Outside?
    ensures s.holder == None && forall x :: x in s.heap <==> x in s.list
    ensures forall k :: k in s.contexts && !s.contexts[k].life.First? ==>
      (k !in s.joined <==> exists i :: 0 <= i < |s.list| && s.list[i] in s.heap && s.heap[s.list[i]].task == Some(k))
  {
    ReachableInv(s);
    assert forall c, x :: !Owned(s, c, x);
    forall k | k in s.contexts && !s.contexts[k].life.First?
      ensures k !in s.joined <==>
        exists i :: 0 <= i < |s.list| && s.list[i] in s.heap && s.heap[s.list[i]].task == Some(k)
    {
      if k !in s.joined {
        var x :| Has(s, k, x);
        var i :| 0 <= i < |s.list| && s.list[i] == x;
      } else {
        forall i | 0 <= i < |s.list| && s.list[i] in s.heap ensures s.heap[s.list[i]].task != Some(k) {
          if s.heap[s.list[i]].task == Some(k) { assert Has(s, k, s.list[i]); }
        }
      }
    }
  }

  // --- no one waits for ever ---

  /** A context that has a step to take of its own accord. */
  predicate Busy(x: Context) { !x.pc.Outside? || x.life.Clearing? || x.life.Marking? || x.life.Releasing? }

  ghost predicate CanStep(s: State, d: nat) { d in s.contexts && Busy(s.contexts[d]) && Enabled(s, Run(d, None)) }

  /** Whoever has the lock can go on. */
  lemma HolderCanStep(s: State)
    requires Locked(s) && s.holder.Some?
    ensures CanStep(s, s.holder.value)
  {
  }

  lemma OthersCanStep(s: State, c: nat)
    requires s.holder == None && c in s.contexts && Busy(s.contexts[c]) && !s.contexts[c].pc.Joining?
    ensures CanStep(s, c)
  {
  }

  /** Whoever waits can go on, or the one that is waited for can. */
  lemma WaiterCanStep(s: State, c: nat, x: nat, k: nat)
    requires Sane(s) && c in s.contexts && s.contexts[c].pc == Joining(x) && x in s.heap && s.heap[x].task == Some(k)
    requires k in s.contexts && Past(s.contexts[k].life)
    ensures CanStep(s, if s.contexts[k].life.Ended? then c else k)
  {
  }

  /** As long as a context is in a call or is ending, some context can take a step: a wait is only for one
      that is about to end. */
  lemma NeverStuck(s: State, c: nat)
    requires Reachable(s) && c in s.contexts && Busy(s.contexts[c])
    ensures exists d :: d in s.contexts && Busy(s.contexts[d]) && Enabled(s, Run(d, None))
  {
    var d := CanGoOn(s, c);
    assert CanStep(s, d);
  }

  lemma CanGoOn(s: State, c: nat) returns (d: nat)
    requires Reachable(s) && c in s.contexts && Busy(s.contexts[c])
    ensures CanStep(s, d)
  {
    ReachableInv(s);
    var pc := s.contexts[c].pc;
    if s.holder.Some? {
      d := s.holder.value;
      HolderCanStep(s);
    } else if pc.Joining? {
      JoinedAfterFinished(s, c, pc.t);
      var k := s.heap[pc.t].task.value;
      d := if s.contexts[k].life.Ended? then c else k;
      WaiterCanStep(s, c, pc.t, k);
    } else {
      d := c;
      OthersCanStep(s, c);
    }
  }

  // --- one call of `reap` ends ---

  predicate InReap(pc: Pc) { pc.Entering? || pc.Walking? || pc.Taken? || pc.Joining? || pc.Freeing? }

  function IndexOf(list: seq<nat>, a: nat): (i: nat)
    ensures i <= |list|
    ensures a in list ==> i < |list| && list[i] == a
  {
    if list == [] || list[0] == a then 0 else 1 + IndexOf(list[1..], a)
  }

  /** The steps that unlinking `n` records may yet cost, besides the last walk. */
  function Rounds(n: nat): nat { if n == 0 then 0 else Rounds(n - 1) + n + 4 }

  /** How many steps of its own a context in `reap` has left, if `links` records will still be put on the
      list by others. */
  function Left(pc: Pc, list: seq<nat>, links: nat): nat {
    var n := |list| + links;
    match pc
    case Entering => n + 2 + Rounds(n)
    case Walking(p) => |list| - Position(list, p) + 1 + Rounds(n)
    case Taken(_) => n + 5 + Rounds(n)
    case Joining(_) => n + 4 + Rounds(n)
    case Freeing(_) => n + 3 + Rounds(n)
    case _ => 0
  }

  /** The number of the entry that a place names. */
  function Position(list: seq<nat>, p: Place): (i: nat)
    ensures i <= |list|
  {
    if p.Next? && p.a in list then IndexOf(list, p.a) + 1 else 0
  }

  /** The step puts a record on the list. */
  predicate IsLink(s: State, e: Event) { e.Run? && e.c in s.contexts && s.contexts[e.c].pc.Linking? }

  lemma {:induction false} RoundsGrow(m: nat, n: nat)
    requires m <= n
    ensures Rounds(m) <= Rounds(n)
    decreases n
  {
    if m < n { RoundsGrow(m, n - 1); }
  }

  lemma {:induction false} IndexIsTheIndex(list: seq<nat>, i: nat)
    requires Distinct(list) && i < |list|
    ensures IndexOf(list, list[i]) == i
  {
  }

  lemma StandsAtPosition(s: State, p: Place, i: nat)
    requires Distinct(s.list) && Stands(s, p, i)
    ensures Position(s.list, p) == i
  {
    if i > 0 { IndexIsTheIndex(s.list, i - 1); }
  }

  /** What a look comes to: the end, the next place, or a record taken off a list that is one shorter. */
  lemma LookResult(s: State, c: nat, i: nat)
    requires Chain(s.heap, s.head, s.list) && c in s.contexts && s.contexts[c].pc.Walking?
    requires Stands(s, s.contexts[c].pc.p, i)
    ensures var t := Look(s, c, s.contexts[c].pc.p);
      && t.contexts.Keys == s.contexts.Keys
      && (forall d :: d in s.contexts && d != c ==> t.contexts[d] == s.contexts[d])
      && if i == |s.list| then t.list == s.list && t.contexts[c].pc == Swept
         else if !s.heap[s.list[i]].finished then t.list == s.list && t.contexts[c].pc == Walking(Next(s.list[i]))
         else |t.list| == |s.list| - 1 && t.contexts[c].pc == Taken(s.list[i])
  {
    StandsLoads(s, s.contexts[c].pc.p, i);
    if i < |s.list| { WithoutRemoves(s.list, i); }
  }

  /** A look of the walk: one step fewer, whether it passes a record, unlinks one or comes to the end. */
  lemma LookIsSpent(s: State, c: nat, links: nat)
    requires Chain(s.heap, s.head, s.list) && Sane(s) && c in s.contexts && s.contexts[c].pc.Walking?
    ensures var t := Look(s, c, s.contexts[c].pc.p);
      c in t.contexts && Left(t.contexts[c].pc, t.list, links) < Left(s.contexts[c].pc, s.list, links)
  {
    var i := StandsSomewhere(s, c);
    var p := s.contexts[c].pc.p;
    StandsAtPosition(s, p, i);
    LookResult(s, c, i);
    if i < |s.list| { IndexIsTheIndex(s.list, i); }
    var t := Look(s, c, p);
    LookCosts(s.list, p, i, t.contexts[c].pc, t.list, links);
  }

  lemma {:induction false} LookCosts(list: seq<nat>, p: Place, i: nat, pc: Pc, list': seq<nat>, links: nat)
    requires i <= |list| && Position(list, p) == i && (i < |list| ==> IndexOf(list, list[i]) == i)
    requires pc == Swept || (i < |list| && list' == list && pc == Walking(Next(list[i])))
      || (i < |list| && |list'| == |list| - 1 && pc == Taken(list[i]))
    ensures Left(pc, list', links) < Left(Walking(p), list, links)
  {
  }

  /** The context's own steps use up what it has left. */
  lemma OwnStepIsSpent(s: State, c: nat, got: Option<nat>, links: nat)
    requires Chain(s.heap, s.head, s.list) && Sane(s) && Enabled(s, Run(c, got)) && InReap(s.contexts[c].pc)
    ensures var t := Apply(s, Run(c, got));
      c in t.contexts && Left(t.contexts[c].pc, t.list, links) < Left(s.contexts[c].pc, s.list, links)
  {
    if s.contexts[c].pc.Walking? {
      LookIsSpent(s, c, links);
    } else {
      assert Apply(s, Run(c, got)).list == s.list;
    }
  }

  /** What a step does to the list. */
  lemma StepOnList(s: State, e: Event)
    requires Chain(s.heap, s.head, s.list) && Sane(s) && Enabled(s, e)
    ensures var t := Apply(s, e);
      if IsLink(s, e) then |t.list| == |s.list| + 1
      else if e.Run? && s.contexts[e.c].pc.Walking? then |t.list| <= |s.list|
      else t.list == s.list
  {
    if e.Run? && s.contexts[e.c].pc.Walking? {
      var i := StandsSomewhere(s, e.c);
      LookResult(s, e.c, i);
    }
  }

  lemma LeftShrinks(pc: Pc, list: seq<nat>, links: nat, list': seq<nat>, links': nat)
    requires |list'| + links' <= |list| + links && (pc.Walking? ==> list' == list)
    ensures Left(pc, list', links') <= Left(pc, list, links)
  {
    RoundsGrow(|list'| + links', |list| + links);
  }

  /** What others do does not add to it: a record they put on the list was counted, and one they take off
      the list is one fewer. */
  lemma OtherStepAddsNothing(s: State, c: nat, e: Event, links: nat)
    requires Chain(s.heap, s.head, s.list) && Sane(s) && Locked(s)
    requires Enabled(s, e) && e.c != c && c in s.contexts && InReap(s.contexts[c].pc)
    requires IsLink(s, e) ==> links > 0
    ensures var t := Apply(s, e);
      && c in t.contexts && t.contexts[c].pc == s.contexts[c].pc
      && Left(t.contexts[c].pc, t.list, if IsLink(s, e) then links - 1 else links)
           <= Left(s.contexts[c].pc, s.list, links)
  {
    var t := Apply(s, e);
    StepOnList(s, e);
    OthersStand(s, e, c);
    if s.contexts[c].pc.Walking? { assert s.holder == Some(c) && s.holder != Some(e.c); }
    LeftShrinks(s.contexts[c].pc, s.list, links, t.list, if IsLink(s, e) then links - 1 else links);
  }

  /** The records that are put on the list in a run. */
  ghost function LinksIn(s: State, es: seq<Event>): nat
    requires Possible(s, es)
    decreases |es|
  {
    if es == [] then 0 else (if IsLink(s, es[0]) then 1 else 0) + LinksIn(Apply(s, es[0]), es[1..])
  }

  /** The steps a context takes in a run until its walk has come to its end. */
  ghost function StepsInReap(s: State, es: seq<Event>, c: nat): nat
    requires Possible(s, es)
    decreases |es|
  {
    if es == [] || c !in s.contexts || !InReap(s.contexts[c].pc) then 0
    else (if es[0].c == c then 1 else 0) + StepsInReap(Apply(s, es[0]), es[1..], c)
  }

  /** A step of a run leaves less, or is another's and leaves no more. */
  ghost predicate Spends(s: State, e: Event, c: nat, links: nat)
    requires Enabled(s, e) && c in s.contexts
  {
    var t := Apply(s, e);
    && c in t.contexts
    && (if e.c == c then 1 else 0) + Left(t.contexts[c].pc, t.list, links)
         <= Left(s.contexts[c].pc, s.list, links + if IsLink(s, e) then 1 else 0)
  }

  lemma StepIsSpent(s: State, c: nat, e: Event, links: nat)
    requires Chain(s.heap, s.head, s.list) && Sane(s) && Locked(s)
    requires Enabled(s, e) && c in s.contexts && InReap(s.contexts[c].pc)
    ensures Spends(s, e, c, links)
  {
    if e.c == c {
      OwnStepIsSpent(s, c, e.got, links);
    } else {
      OtherStepAddsNothing(s, c, e, links + if IsLink(s, e) then 1 else 0);
    }
  }

  /** What a step of `reap` relies upon. */
  ghost predicate Orderly(s: State) { Chain(s.heap, s.head, s.list) && Sane(s) && Locked(s) }

  ghost predicate OrderlyRun(s: State, es: seq<Event>)
    requires Possible(s, es)
    decreases |es|
  {
    Orderly(s) && (es == [] || OrderlyRun(Apply(s, es[0]), es[1..]))
  }

  lemma {:induction false} EveryRunIsOrderly(s: State, es: seq<Event>)
    requires Inv(s) && Possible(s, es)
    ensures OrderlyRun(s, es)
    decreases |es|
  {
    if es != [] {
      StepKeepsInv(s, es[0]);
      EveryRunIsOrderly(Apply(s, es[0]), es[1..]);
    }
  }

  lemma {:induction false} ReachableIsOrderly(s: State, es: seq<Event>)
    requires Reachable(s) && Possible(s, es)
    ensures OrderlyRun(s, es)
  {
    ReachableInv(s);
    EveryRunIsOrderly(s, es);
  }

  /** Each step of a run does so. */
  ghost predicate SpentRun(s: State, es: seq<Event>, c: nat)
    requires Possible(s, es)
    decreases |es|
  {
    es == [] || c !in s.contexts || !InReap(s.contexts[c].pc) ||
    (Spends(s, es[0], c, LinksIn(Apply(s, es[0]), es[1..])) && SpentRun(Apply(s, es[0]), es[1..], c))
  }

  lemma {:induction false} EveryRunSpends(s: State, es: seq<Event>, c: nat)
    requires Possible(s, es) && OrderlyRun(s, es)
    ensures SpentRun(s, es, c)
    decreases |es|
  {
    if es != [] && c in s.contexts && InReap(s.contexts[c].pc) {
      StepIsSpent(s, c, es[0], LinksIn(Apply(s, es[0]), es[1..]));
      EveryRunSpends(Apply(s, es[0]), es[1..], c);
    }
  }

  /** The first step of a run, and what follows it. */
  lemma {:induction false} SpentFirst(s: State, es: seq<Event>, c: nat)
    requires es != [] && Possible(s, es) && SpentRun(s, es, c) && c in s.contexts && InReap(s.contexts[c].pc)
    ensures var t, one := Apply(s, es[0]), if es[0].c == c then 1 else 0;
      && c in t.contexts && SpentRun(t, es[1..], c) && StepsInReap(s, es, c) == one + StepsInReap(t, es[1..], c)
      && one + Left(t.contexts[c].pc, t.list, LinksIn(t, es[1..])) <= Left(s.contexts[c].pc, s.list, LinksIn(s, es))
  {
    CountsFirst(s, es, c);
    SpentTail(s, es, c);
  }

  lemma {:induction false} SpentTail(s: State, es: seq<Event>, c: nat)
    requires es != [] && Possible(s, es) && SpentRun(s, es, c) && c in s.contexts && InReap(s.contexts[c].pc)
    ensures SpentRun(Apply(s, es[0]), es[1..], c) && Spends(s, es[0], c, LinksIn(Apply(s, es[0]), es[1..]))
  {
  }

  lemma {:induction false} CountsFirst(s: State, es: seq<Event>, c: nat)
    requires es != [] && Possible(s, es) && c in s.contexts && InReap(s.contexts[c].pc)
    ensures StepsInReap(s, es, c) == (if es[0].c == c then 1 else 0) + StepsInReap(Apply(s, es[0]), es[1..], c)
    ensures LinksIn(s, es) == LinksIn(Apply(s, es[0]), es[1..]) + if IsLink(s, es[0]) then 1 else 0
  {
  }

  lemma {:induction false} NoStepsOutside(s: State, es: seq<Event>, c: nat)
    requires Possible(s, es) && c in s.contexts && !InReap(s.contexts[c].pc)
    ensures StepsInReap(s, es, c) == 0
  {
  }

  lemma {:induction false} SpentInRun(s: State, es: seq<Event>, c: nat)
    requires Possible(s, es) && SpentRun(s, es, c) && c in s.contexts && InReap(s.contexts[c].pc)
    ensures StepsInReap(s, es, c) <= Left(s.contexts[c].pc, s.list, LinksIn(s, es))
    decreases |es|
  {
    if es != [] {
      var t := Apply(s, es[0]);
      SpentFirst(s, es, c);
      if InReap(t.contexts[c].pc) { SpentInRun(t, es[1..], c); } else { NoStepsOutside(t, es[1..], c); }
    }
  }

  lemma {:induction false} SpentFromReachable(s: State, es: seq<Event>, c: nat)
    requires Reachable(s) && Possible(s, es) && c in s.contexts && InReap(s.contexts[c].pc)
    ensures StepsInReap(s, es, c) <= Left(s.contexts[c].pc, s.list, LinksIn(s, es))
  {
    ReachableIsOrderly(s, es);
    EveryRunSpends(s, es, c);
    SpentInRun(s, es, c);
  }

  lemma LeftAtFirst(steps: nat, list: seq<nat>, links: nat)
    requires steps <= Left(Entering, list, links)
    ensures var n := |list| + links; steps <= n + 2 + Rounds(n)
  {
  }

  /** One call of `reap` is bounded by the records it may find: each restart of the walk has removed one. */
  lemma {:induction false} ReapIsBounded(s: State, es: seq<Event>, c: nat)
    requires Reachable(s) && Possible(s, es) && c in s.contexts && s.contexts[c].pc.Entering?
    ensures var n := |s.list| + LinksIn(s, es); StepsInReap(s, es, c) <= n + 2 + Rounds(n)
  {
    SpentFromReachable(s, es, c);
    LeftAtFirst(StepsInReap(s, es, c), s.list, LinksIn(s, es));
  }
}
