/**
  The place that a readiness enquiry keeps what it got in: a listener's connection, a datagram endpoint's
  message, the byte of a stream. It is looked at and then taken from or put into, without a lock, by any
  number of contexts. What is kept, a thing, is what one request to the environment gave; no two are one.
*/
module HeldAhead {
  import opened Options

  /** Where a context is: outside; having seen something in the place, about to take it; having seen nothing,
      about to ask the environment for itself, or to keep what it gets; having got it, about to put it in. */
  datatype Pc = Outside | Taking | Asking | Enquiring | Keeping(o: nat)

  /** What was taken lies behind in the place; the flag says whether it counts. `had` is what contexts have
      received, in order, and `given` what the environment gave. */
  datatype State = State(full: bool, thing: nat, pcs: map<nat, Pc>, had: seq<nat>, given: set<nat>)

  /** A receive or an accept looks; an enquiry looks; a context takes its next step. */
  datatype Event = Receive(c: nat) | Enquire(c: nat) | Run(c: nat, got: Option<nat>)

  predicate Enabled(s: State, e: Event) {
    && e.c in s.pcs
    && match e
       case Run(c, got) =>
         && !s.pcs[c].Outside?
         && (got.Some? && (s.pcs[c].Asking? || s.pcs[c].Enquiring?) ==> got.value !in s.given)
       case _ => s.pcs[e.c].Outside?
  }

  function Go(s: State, c: nat, pc: Pc): State { s.(pcs := s.pcs[c := pc]) }

  function Apply(s: State, e: Event): State
    requires Enabled(s, e)
  {
    match e
    case Receive(c) => Go(s, c, if s.full then Taking else Asking)
    case Enquire(c) => if s.full then s else Go(s, c, Enquiring)
    case Run(c, got) =>
      match s.pcs[c]
      case Outside => s
      case Taking => Go(s.(full := false, had := s.had + [s.thing]), c, Outside)
      case Asking =>
        if got.None? then Go(s, c, Outside)
        else Go(s.(had := s.had + [got.value], given := s.given + {got.value}), c, Outside)
      case Enquiring =>
        if got.None? then Go(s, c, Outside) else Go(s.(given := s.given + {got.value}), c, Keeping(got.value))
      case Keeping(o) => Go(s.(full := true, thing := o), c, Outside)
  }

  // --- where a thing is ---

  function Times(had: seq<nat>, o: nat): nat {
    if had == [] then 0 else (if had[0] == o then 1 else 0) + Times(had[1..], o)
  }

  lemma {:induction false} TimesMore(had: seq<nat>, x: nat, o: nat)
    ensures Times(had + [x], o) == Times(had, o) + if x == o then 1 else 0
  {
    if had == [] {
      assert had + [x] == [x];
    } else {
      assert (had + [x])[1..] == had[1..] + [x];
      TimesMore(had[1..], x, o);
    }
  }

  /** The contexts that have a thing in hand. */
  function Hands(s: State, o: nat): set<nat> { set c | c in s.pcs && s.pcs[c] == Keeping(o) }

  /** How often a thing has been received, is kept or is in hand. */
  function Places(s: State, o: nat): nat {
    Times(s.had, o) + |Hands(s, o)| + if s.full && s.thing == o then 1 else 0
  }

  /** Everything the environment gave is in one place, and nothing else is in any. */
  ghost predicate Balanced(s: State) {
    forall o: nat :: Places(s, o) == if o in s.given then 1 else 0
  }

  /** What is taken is still there, and what is kept finds the place empty. */
  predicate Good(s: State, e: Event)
    requires Enabled(s, e)
  {
    e.Run? ==> (s.pcs[e.c].Taking? ==> s.full) && (s.pcs[e.c].Keeping? ==> !s.full)
  }

  /** A context that comes to hold something, ceases to, or does neither. */
  lemma HandsAfter(s: State, c: nat, pc: Pc, o: nat)
    requires c in s.pcs
    ensures |Hands(Go(s, c, pc), o)| + (if s.pcs[c] == Keeping(o) then 1 else 0)
         == |Hands(s, o)| + if pc == Keeping(o) then 1 else 0
  {
    var h, k := Hands(s, o), Hands(Go(s, c, pc), o);
    assert k == if pc == Keeping(o) then h + {c} else h - {c};
    assert c in h <==> s.pcs[c] == Keeping(o);
  }

  /** What becomes of a thing in a step, besides the places of it that are counted there. */
  lemma StepCounts(s: State, e: Event, o: nat)
    requires Enabled(s, e)
    ensures var t := Apply(s, e);
      && Places(t, o) - Places(s, o)
           == (if o in t.given && o !in s.given then 1 else 0)
            + (if e.Run? && s.pcs[e.c].Taking? && !s.full && s.thing == o then 1 else 0)
            - (if e.Run? && s.pcs[e.c].Keeping? && s.full && s.thing == o then 1 else 0)
  {
    var t := Apply(s, e);
    HandsAfter(s, e.c, t.pcs[e.c], o);
    assert t.pcs == s.pcs[e.c := t.pcs[e.c]];
    assert Hands(t, o) == Hands(Go(s, e.c, t.pcs[e.c]), o);
    if e.Run? {
      TimesMore(s.had, s.thing, o);
      if e.got.Some? { TimesMore(s.had, e.got.value, o); }
    }
  }

  /** A step keeps everything in one place exactly when it finds what it saw when it looked. */
  lemma GoodExactly(s: State, e: Event)
    requires Balanced(s) && Enabled(s, e)
    ensures Balanced(Apply(s, e)) <==> Good(s, e)
  {
    var t := Apply(s, e);
    forall o: nat ensures Places(t, o) - Places(s, o) == (if o in t.given && o !in s.given then 1 else 0)
            + (if e.Run? && s.pcs[e.c].Taking? && !s.full && s.thing == o then 1 else 0)
            - (if e.Run? && s.pcs[e.c].Keeping? && s.full && s.thing == o then 1 else 0)
    {
      StepCounts(s, e, o);
    }
    if !Good(s, e) { assert Places(t, s.thing) != Places(s, s.thing); }
  }

  // --- runs ---

  ghost predicate Possible(s: State, es: seq<Event>)
    decreases |es|
  {
    es == [] || (Enabled(s, es[0]) && Possible(Apply(s, es[0]), es[1..]))
  }

  ghost function After(s: State, es: seq<Event>): State
    requires Possible(s, es)
    decreases |es|
  {
    if es == [] then s else After(Apply(s, es[0]), es[1..])
  }

  /** An empty place that no one has used. */
  ghost predicate Init(s: State) {
    !s.full && s.had == [] && s.given == {} && forall c :: c in s.pcs ==> s.pcs[c] == Outside
  }

  ghost predicate AlwaysBalanced(s: State, es: seq<Event>)
    requires Possible(s, es)
    decreases |es|
  {
    Balanced(s) && (es == [] || AlwaysBalanced(Apply(s, es[0]), es[1..]))
  }

  ghost predicate AlwaysGood(s: State, es: seq<Event>)
    requires Possible(s, es)
    decreases |es|
  {
    es == [] || (Good(s, es[0]) && AlwaysGood(Apply(s, es[0]), es[1..]))
  }

  lemma {:induction false} AlwaysExactly(s: State, es: seq<Event>)
    requires Balanced(s) && Possible(s, es)
    ensures AlwaysBalanced(s, es) <==> AlwaysGood(s, es)
    decreases |es|
  {
    if es != [] {
      GoodExactly(s, es[0]);
      if Good(s, es[0]) { AlwaysExactly(Apply(s, es[0]), es[1..]); }
    }
  }

  lemma InitBalanced(s: State)
    requires Init(s)
    ensures Balanced(s)
  {
    forall o: nat ensures Places(s, o) == 0 { assert Hands(s, o) == {}; }
  }

  /** All through a run each thing the environment gave has been received once, is kept or is in hand, exactly
      when each context that took found the place still full, and each that kept found it still empty. */
  lemma {:induction false} NothingLostExactly(s: State, es: seq<Event>)
    requires Init(s) && Possible(s, es)
    ensures AlwaysBalanced(s, es) <==> AlwaysGood(s, es)
  {
    InitBalanced(s);
    AlwaysExactly(s, es);
  }

  // --- what makes it so ---

  /** Between a look that has found something and the taking of it, or one that has found nothing and the
      keeping of what was got. */
  predicate Between(pc: Pc) { pc.Taking? || pc.Enquiring? || pc.Keeping? }

  /** One context at most is there. */
  ghost predicate OneAtATime(s: State) {
    forall c, d :: c in s.pcs && d in s.pcs && Between(s.pcs[c]) && Between(s.pcs[d]) ==> c == d
  }

  ghost predicate NoOverlap(s: State, es: seq<Event>)
    requires Possible(s, es)
    decreases |es|
  {
    OneAtATime(s) && (es == [] || NoOverlap(Apply(s, es[0]), es[1..]))
  }

  /** What a context saw is still so. */
  ghost predicate StillSo(s: State) {
    forall c :: c in s.pcs ==>
      (s.pcs[c].Taking? ==> s.full) && (s.pcs[c].Enquiring? || s.pcs[c].Keeping? ==> !s.full)
  }

  lemma StillSoAfter(s: State, e: Event)
    requires StillSo(s) && Enabled(s, e) && OneAtATime(s) && OneAtATime(Apply(s, e))
    ensures StillSo(Apply(s, e)) && Good(s, e)
  {
  }

  lemma {:induction false} StillSoAlways(s: State, es: seq<Event>)
    requires StillSo(s) && Possible(s, es) && NoOverlap(s, es)
    ensures AlwaysGood(s, es)
    decreases |es|
  {
    if es != [] {
      StillSoAfter(s, es[0]);
      StillSoAlways(Apply(s, es[0]), es[1..]);
    }
  }

  /** It is so in every run in which no two contexts are there at once. */
  lemma {:induction false} NothingLostOneAtATime(s: State, es: seq<Event>)
    requires Init(s) && Possible(s, es) && NoOverlap(s, es)
    ensures AlwaysBalanced(s, es)
  {
    StillSoAlways(s, es);
    NothingLostExactly(s, es);
  }

  // --- and where it is not ---

  lemma {:induction false} Onward(s: State, es: seq<Event>, t: State, e: Event)
    requires Possible(s, es) && After(s, es) == t && Enabled(t, e)
    ensures Possible(s, es + [e]) && After(s, es + [e]) == Apply(t, e)
    decreases |es|
  {
    if es == [] {
      assert es + [e] == [e] && [e][1..] == [];
      assert Possible(Apply(t, e), []);
    } else {
      Onward(Apply(s, es[0]), es[1..], t, e);
      assert (es + [e])[1..] == es[1..] + [e];
    }
  }

  lemma Then(s: State, es: seq<Event>, t: State, e: Event) returns (fs: seq<Event>, u: State)
    requires Possible(s, es) && After(s, es) == t && Enabled(t, e)
    ensures Possible(s, fs) && After(s, fs) == u && u == Apply(t, e)
  {
    Onward(s, es, t, e);
    fs, u := es + [e], Apply(t, e);
  }

  /** A thing is kept. */
  lemma Kept(s: State, c: nat, o: nat) returns (es: seq<Event>, t: State)
    requires Init(s) && c in s.pcs
    ensures Possible(s, es) && After(s, es) == t
    ensures t.full && t.thing == o && t.had == [] && t.given == {o} && t.pcs == s.pcs
  {
    es, t := Then(s, [], s, Enquire(c));
    es, t := Then(s, es, t, Run(c, Some(o)));
    es, t := Then(s, es, t, Run(c, None));
    assert t.pcs == s.pcs;
  }

  /** Two contexts that have seen one thing both receive it. */
  lemma ReceivedTwice(s: State, o: nat) returns (es: seq<Event>)
    requires Init(s) && 0 in s.pcs && 1 in s.pcs
    ensures Possible(s, es) && After(s, es).had == [o, o] && After(s, es).given == {o}
  {
    var t;
    es, t := Kept(s, 0, o);
    es, t := Then(s, es, t, Receive(0));
    es, t := Then(s, es, t, Receive(1));
    es, t := Then(s, es, t, Run(0, None));
    es, t := Then(s, es, t, Run(1, None));
  }

  /** Two contexts that have seen nothing both keep what they get, and the first is lost. */
  lemma LostToAnother(s: State, o: nat, p: nat) returns (es: seq<Event>)
    requires Init(s) && 0 in s.pcs && 1 in s.pcs && o != p
    ensures Possible(s, es)
    ensures After(s, es).given == {o, p} && Places(After(s, es), o) == 0 && Places(After(s, es), p) == 1
  {
    var t;
    es, t := Then(s, [], s, Enquire(0));
    es, t := Then(s, es, t, Enquire(1));
    es, t := Then(s, es, t, Run(0, Some(o)));
    es, t := Then(s, es, t, Run(1, Some(p)));
    es, t := Then(s, es, t, Run(0, None));
    es, t := Then(s, es, t, Run(1, None));
    assert Hands(t, o) == {} && Hands(t, p) == {};
  }
}
