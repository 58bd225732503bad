/**
  Contexts by the identities that the implementation answers, of which the table of `Contexts` keeps keys.
  Which identities have keys of their own, and what a context comes to whose identity has not.
*/
module ContextIdentities {
  import opened Options
  import opened Contexts

  /** An identity is a word of 64 bits. */
  predicate IsIdentity(a: nat) { a < 0x1_0000_0000_0000_0000 }

  /** Two identities have one key exactly when they are zero and the word that stands for it. */
  lemma OneKey(a: nat, b: nat)
    requires IsIdentity(a) && IsIdentity(b) && a != b
    ensures KeyOf(a) == KeyOf(b) <==> (a == 0 && b == ZERO) || (a == ZERO && b == 0)
  {
  }

  /** The key of an identity is one that an entry may have exactly when it is not the word for a retired one. */
  lemma NoKey(a: nat)
    requires IsIdentity(a)
    ensures IsKey(KeyOf(a)) <==> a != RETIRED
  {
  }

  /** Identities that may be used together. */
  predicate Usable(ids: set<nat>) {
    && (forall a :: a in ids ==> IsIdentity(a) && a != RETIRED)
    && !(0 in ids && ZERO in ids)
  }

  lemma UsableIsApart(ids: set<nat>, a: nat, b: nat)
    requires Usable(ids) && a in ids && b in ids && a != b
    ensures IsKey(KeyOf(a)) && KeyOf(a) != KeyOf(b)
  {
    NoKey(a);
    OneKey(a, b);
  }

  // --- the same steps, by identity ---

  /** The table, and contexts and what they have stored by identity, as one context steps on it: by its key.
      One that has come to an entry without having stored anything has stored nothing. */
  function Seen(m: State, a: nat): State
    requires a in m.contexts
  {
    var k, pc := KeyOf(a), m.contexts[a].pc;
    State(m.slots, m.recorded, map[k := m.contexts[a]],
      if a in m.records then map[k := m.records[a]]
      else if pc.Holding? || pc.Clearing? then map[k := Record(0, 0)]
      else map[])
  }

  predicate MayStep(m: State, a: nat) { a in m.contexts && Enabled(Seen(m, a), KeyOf(a)) }

  /** What a step leaves of the others. */
  lemma StepKeepsContexts(s: State, c: nat, op: Op)
    requires Enabled(s, c)
    ensures var t := Step(s, c, op); c in t.contexts && t.contexts == s.contexts[c := t.contexts[c]]
    ensures var t := Step(s, c, op);
      t.records == if c in t.records then s.records[c := t.records[c]] else s.records - {c}
  {
    var pc := s.contexts[c].pc;
    if pc.Holding? {
      UseKeepsContexts(s, c, s.contexts[c].op, pc.x);
    } else if pc.Swapping? || pc.Clearing? || pc.Retiring? {
      WriteKeepsContexts(s, c, op);
    }
  }

  lemma WriteKeepsContexts(s: State, c: nat, op: Op)
    requires Enabled(s, c) && (s.contexts[c].pc.Swapping? || s.contexts[c].pc.Clearing? || s.contexts[c].pc.Retiring?)
    ensures var t := Step(s, c, op); c in t.contexts && t.contexts == s.contexts[c := t.contexts[c]]
    ensures var t := Step(s, c, op);
      t.records == if c in t.records then s.records[c := t.records[c]] else s.records - {c}
  {
  }

  lemma UseKeepsContexts(s: State, c: nat, op: Op, x: nat)
    requires c in s.contexts && x < CONTEXTS && c in s.records
    ensures var t := Used(s, c, op, x);
      c in t.contexts && t.contexts == s.contexts[c := t.contexts[c]] && c in t.records &&
          t.records == s.records[c := t.records[c]]
  {
  }

  function StepBy(m: State, a: nat, op: Op): State
    requires MayStep(m, a)
  {
    var k := KeyOf(a);
    StepKeepsContexts(Seen(m, a), k, op);
    var t := Step(Seen(m, a), k, op);
    State(t.slots, t.recorded, m.contexts[a := t.contexts[k]],
      if k in t.records then m.records[a := t.records[k]] else m.records - {a})
  }

  ghost predicate SameContexts(m: map<nat, Context>, s: map<nat, Context>) {
    forall a :: a in m ==> KeyOf(a) in s && s[KeyOf(a)] == m[a]
  }

  ghost predicate SameRecords(ids: set<nat>, m: map<nat, Record>, s: map<nat, Record>) {
    forall a :: a in ids ==> Look(m, a) == Look(s, KeyOf(a))
  }

  /** By identity and by key, the same. */
  ghost predicate Same(m: State, s: State) {
    && m.slots == s.slots && m.recorded == s.recorded
    && SameContexts(m.contexts, s.contexts) && SameRecords(m.contexts.Keys, m.records, s.records)
  }

  /** Two states that are the same to one context. */
  predicate Alike(s: State, v: State, c: nat) {
    && s.slots == v.slots && s.recorded == v.recorded && Look(s.records, c) == Look(v.records, c)
    && c in s.contexts && c in v.contexts && s.contexts[c] == v.contexts[c]
  }

  lemma UseIsItsOwn(s: State, v: State, c: nat, x: nat)
    requires Alike(s, v, c) && x < CONTEXTS && c in s.records && c in v.records
    ensures Alike(Used(s, c, s.contexts[c].op, x), Used(v, c, s.contexts[c].op, x), c)
  {
    match s.contexts[c].op
    case GetTp =>
    case GetSelf =>
    case SetTp(_) =>
    case SetSelf(_) =>
    case Release =>
  }

  lemma ClearIsItsOwn(s: State, v: State, c: nat, op: Op)
    requires Alike(s, v, c) && Enabled(s, c) && Enabled(v, c)
    requires (s.contexts[c].pc.Clearing? || s.contexts[c].pc.Retiring?)
    ensures Alike(Step(s, c, op), Step(v, c, op), c)
  {
  }

  lemma SwapIsItsOwn(s: State, v: State, c: nat, op: Op)
    requires Alike(s, v, c) && Enabled(s, c) && Enabled(v, c) && s.contexts[c].pc.Swapping?
    ensures Alike(Step(s, c, op), Step(v, c, op), c)
  {
  }

  /** A step depends upon nothing of the other contexts but the table. */
  lemma StepIsItsOwn(s: State, v: State, c: nat, op: Op)
    requires Alike(s, v, c) && Enabled(s, c) && Enabled(v, c)
    ensures Alike(Step(s, c, op), Step(v, c, op), c)
  {
    match s.contexts[c].pc
    case Holding(x) => UseIsItsOwn(s, v, c, x);
    case Clearing(_) => ClearIsItsOwn(s, v, c, op);
    case Retiring(_) => ClearIsItsOwn(s, v, c, op);
    case Swapping(_, _) => SwapIsItsOwn(s, v, c, op);
    case Returned(_) =>
    case Recording =>
    case Missing =>
    case Probing(i, n, free) =>
      assert Probe(s, c, s.contexts[c].op, i, n, free) == Probe(v, c, s.contexts[c].op, i, n, free);
    case Claiming(f) =>
      assert Claim(s, c, s.contexts[c].op, f) == Claim(v, c, s.contexts[c].op, f);
  }

  /** What is at an entry has stored something. */
  lemma SeenIsSo(m: State, s: State, a: nat)
    requires Inv(s) && Same(m, s) && a in m.contexts
    ensures Alike(s, Seen(m, a), KeyOf(a))
  {
    assert Local(s.slots, s.records, KeyOf(a), s.contexts[KeyOf(a)]);
  }

  /** The map with a key's value set, or without the key. */
  function With(records: map<nat, Record>, k: nat, r: Option<Record>): map<nat, Record> {
    if r.Some? then records[k := r.value] else records - {k}
  }

  /** The key is no other's. */
  ghost predicate KeyApart(ids: set<nat>, a: nat) { forall b :: b in ids && b != a ==> KeyOf(b) != KeyOf(a) }

  lemma UsableKeyApart(ids: set<nat>, a: nat)
    requires Usable(ids) && a in ids
    ensures KeyApart(ids, a)
  {
    forall b | b in ids && b != a ensures KeyOf(b) != KeyOf(a) { UsableIsApart(ids, a, b); }
  }

  lemma MergedContexts(m: map<nat, Context>, s: map<nat, Context>, a: nat, x: Context)
    requires SameContexts(m, s) && a in m && KeyApart(m.Keys, a)
    ensures SameContexts(m[a := x], s[KeyOf(a) := x])
  {
  }

  lemma MergedRecords(ids: set<nat>, m: map<nat, Record>, s: map<nat, Record>, a: nat, r: Option<Record>)
    requires SameRecords(ids, m, s) && KeyApart(ids, a)
    ensures SameRecords(ids, With(m, a, r), With(s, KeyOf(a), r))
  {
  }

  /** What one identity and its key become alike leaves the others alike. */
  lemma Merged(m: State, s: State, n: State, t: State, a: nat, x: Context, r: Option<Record>)
    requires Same(m, s) && Usable(m.contexts.Keys) && a in m.contexts
    requires n.slots == t.slots && n.recorded == t.recorded
    requires n.contexts == m.contexts[a := x] && t.contexts == s.contexts[KeyOf(a) := x]
    requires n.records == With(m.records, a, r) && t.records == With(s.records, KeyOf(a), r)
    ensures Same(n, t)
  {
    UsableKeyApart(m.contexts.Keys, a);
    MergedContexts(m.contexts, s.contexts, a, x);
    MergedRecords(m.contexts.Keys, m.records, s.records, a, r);
    assert n.contexts.Keys == m.contexts.Keys;
  }

  lemma StepWith(s: State, c: nat, op: Op)
    requires Enabled(s, c)
    ensures var t := Step(s, c, op);
      c in t.contexts && t.contexts == s.contexts[c := t.contexts[c]] &&
          t.records == With(s.records, c, Look(t.records, c))
  {
    StepKeepsContexts(s, c, op);
  }

  lemma StepByIs(m: State, a: nat, op: Op)
    requires MayStep(m, a)
    ensures var n, u := StepBy(m, a, op), Step(Seen(m, a), KeyOf(a), op);
      && KeyOf(a) in u.contexts
      && n == State(u.slots, u.recorded, m.contexts[a := u.contexts[KeyOf(a)]],
          With(m.records, a, Look(u.records, KeyOf(a))))
  {
    StepKeepsContexts(Seen(m, a), KeyOf(a), op);
  }

  lemma AlikeMayStep(s: State, v: State, c: nat)
    requires Alike(s, v, c) && Enabled(v, c)
    ensures Enabled(s, c)
  {
  }

  /** What steps alike by identity and by key stays the same. */
  lemma StepIsSame(m: State, s: State, a: nat, op: Op)
    requires MayStep(m, a) && Alike(s, Seen(m, a), KeyOf(a)) && Same(m, s) && Usable(m.contexts.Keys)
    ensures Enabled(s, KeyOf(a)) && Same(StepBy(m, a, op), Step(s, KeyOf(a), op))
  {
    var k, v := KeyOf(a), Seen(m, a);
    AlikeMayStep(s, v, k);
    StepIsItsOwn(s, v, k, op);
    StepWith(s, k, op);
    StepByIs(m, a, op);
    var n, t, u := StepBy(m, a, op), Step(s, k, op), Step(v, k, op);
    assert Alike(t, u, k);
    Merged(m, s, n, t, a, t.contexts[k], Look(t.records, k));
  }

  // --- runs, by identity ---

  predicate RunsBy(m: State, es: seq<Event>)
    decreases |es|
  {
    es == [] || (MayStep(m, es[0].c) && RunsBy(StepBy(m, es[0].c, es[0].op), es[1..]))
  }

  function AfterBy(m: State, es: seq<Event>): State
    requires RunsBy(m, es)
    decreases |es|
  {
    if es == [] then m else AfterBy(StepBy(m, es[0].c, es[0].op), es[1..])
  }

  /** The same run, by key. */
  function Keyed(es: seq<Event>): seq<Event> {
    if es == [] then [] else [Event(KeyOf(es[0].c), es[0].op)] + Keyed(es[1..])
  }

  lemma OneStepIsSame(m: State, s: State, a: nat, op: Op)
    requires Inv(s) && Same(m, s) && MayStep(m, a) && Usable(m.contexts.Keys)
    ensures Enabled(s, KeyOf(a)) && Inv(Step(s, KeyOf(a), op)) && Same(StepBy(m, a, op), Step(s, KeyOf(a), op))
    ensures StepBy(m, a, op).contexts.Keys == m.contexts.Keys
  {
    SeenIsSo(m, s, a);
    StepIsSame(m, s, a, op);
    StepKeepsInv(s, KeyOf(a), op);
    StepByIs(m, a, op);
  }

  lemma {:induction false} RunIsSame(m: State, s: State, es: seq<Event>)
    requires Inv(s) && Same(m, s) && RunsBy(m, es) && Usable(m.contexts.Keys)
    ensures Runs(s, Keyed(es)) && Same(AfterBy(m, es), After(s, Keyed(es)))
    ensures AfterBy(m, es).contexts.Keys == m.contexts.Keys
    decreases |es|
  {
    if es != [] {
      OneStepIsSame(m, s, es[0].c, es[0].op);
      RunIsSame(StepBy(m, es[0].c, es[0].op), Step(s, KeyOf(es[0].c), es[0].op), es[1..]);
      assert Keyed(es)[1..] == Keyed(es[1..]);
    }
  }

  /** An empty table, and contexts that have made no call but the release of nothing. */
  ghost predicate Begins(m: State) {
    && (forall a :: 0 <= a < CONTEXTS ==> m.slots[a] == Slot(FREE, 0, 0))
    && m.records == map[] && !m.recorded
    && forall a :: a in m.contexts ==> m.contexts[a] == Context(Release, None, Returned(Done))
  }

  function Keys(ids: set<nat>): set<nat> { set a | a in ids :: KeyOf(a) }

  function ByKey(m: State): State {
    State(m.slots, m.recorded, map k | k in Keys(m.contexts.Keys) :: Context(Release, None, Returned(Done)), map[])
  }

  lemma BeginsByKey(m: State)
    requires Begins(m) && Usable(m.contexts.Keys)
    ensures Initial(ByKey(m)) && Same(m, ByKey(m))
  {
    forall a | a in m.contexts ensures IsKey(KeyOf(a)) { NoKey(a); }
  }

  /** Any number of contexts with usable identities, after any run: each has its own entry, which its search
      reaches and which holds what it stored, or none; and each call that has returned did what it would
      have done on a record of the context's own. */
  lemma {:induction false} EveryIdentityHasItsOwn(m: State, es: seq<Event>, a: nat)
    requires Begins(m) && Usable(m.contexts.Keys) && RunsBy(m, es) && a in m.contexts
    ensures var n := AfterBy(m, es);
      a in n.contexts && HasItsOwn(n.slots, KeyOf(a), Look(n.records, a), n.contexts[a])
  {
    var s := ByKey(m);
    BeginsByKey(m);
    InitialInv(s);
    RunIsSame(m, s, es);
    EveryContextHasItsOwn(s, Keyed(es), KeyOf(a));
  }

  // --- identities that have no key of their own ---

  ghost predicate Leads(m: State, es: seq<Event>, n: State) { RunsBy(m, es) && AfterBy(m, es) == n }

  lemma TailOf(es: seq<Event>, fs: seq<Event>)
    requires es != []
    ensures (es + fs)[0] == es[0] && (es + fs)[1..] == es[1..] + fs
  {
  }

  lemma {:induction false} Then(m: State, es: seq<Event>, n: State, fs: seq<Event>, o: State)
    requires Leads(m, es, n) && Leads(n, fs, o)
    ensures Leads(m, es + fs, o)
    decreases |es|
  {
    if es == [] {
      assert es + fs == fs;
    } else {
      var m1 := LeadsFirst(m, es, n);
      Then(m1, es[1..], n, fs, o);
      TailOf(es, fs);
      LeadsOn(m, es + fs, m1, o);
    }
  }

  /** The first step, by itself. */
  ghost predicate StepsTo(m: State, e: Event, m1: State) { MayStep(m, e.c) && m1 == StepBy(m, e.c, e.op) }

  lemma LeadsFirst(m: State, es: seq<Event>, n: State) returns (m1: State)
    requires es != [] && Leads(m, es, n)
    ensures StepsTo(m, es[0], m1) && Leads(m1, es[1..], n)
  {
    m1 := StepBy(m, es[0].c, es[0].op);
  }

  lemma LeadsOn(m: State, es: seq<Event>, m1: State, o: State)
    requires es != [] && StepsTo(m, es[0], m1) && Leads(m1, es[1..], o)
    ensures Leads(m, es, o)
  {
  }

  lemma Steps(m: State, es: seq<Event>, n: State, a: nat, op: Op) returns (fs: seq<Event>, o: State)
    requires Leads(m, es, n) && MayStep(n, a)
    ensures Leads(m, fs, o) && o == StepBy(n, a, op)
  {
    var e := Event(a, op);
    o := StepBy(n, a, op);
    assert [e][1..] == [] && RunsBy(o, []) && RunsBy(n, [e]);
    fs := es + [e];
    Then(m, es, n, [e], o);
  }

  /** What one step changes: the context's place, and perhaps the table and its record. */
  ghost predicate Moves(m: State, n: State, a: nat, slots: Table, x: Context, r: Option<Record>) {
    && n.slots == slots && n.contexts == m.contexts[a := x] && (m.recorded ==> n.recorded)
    && n.records == With(m.records, a, r)
  }

  lemma StartsCall(m: State, a: nat, op: Op) returns (es: seq<Event>, n: State)
    requires a in m.contexts && m.contexts[a].pc.Returned? && m.contexts[a].pc != Returned(Aborted)
    ensures Leads(m, es, n)
    ensures Moves(m, n, a, m.slots, Context(op, Look(m.records, a), Probing(StartAt(KeyOf(a)), 0, None)),
        Look(m.records, a))
  {
    es, n := Steps(m, [], m, a, op);
  }

  lemma Probes(m: State, a: nat) returns (es: seq<Event>, n: State)
    requires a in m.contexts && m.contexts[a].pc.Probing? && InTable(m.contexts[a].pc)
    ensures Leads(m, es, n)
    ensures var x := m.contexts[a];
      Moves(m, n, a, m.slots, x.(pc := Probe(m, KeyOf(a), x.op, x.pc.i, x.pc.n, x.pc.free)), Look(m.records, a))
  {
    ProbeSeen(m, a);
    var x := m.contexts[a];
    MovesOnly(m, a, Release, Probe(m, KeyOf(a), x.op, x.pc.i, x.pc.n, x.pc.free));
    es, n := Steps(m, [], m, a, Release);
  }

  /** A probe looks at the table alone. */
  lemma ProbeSeen(m: State, a: nat)
    requires a in m.contexts && m.contexts[a].pc.Probing? && InTable(m.contexts[a].pc)
    ensures MayStep(m, a)
    ensures var s, k, x := Seen(m, a), KeyOf(a), m.contexts[a];
      Step(s, k, Release) == Moved(s, k, Probe(m, k, x.op, x.pc.i, x.pc.n, x.pc.free))
  {
  }

  /** A step that only moves the context along. */
  lemma MovesOnly(m: State, a: nat, op: Op, pc: Pc)
    requires MayStep(m, a) && !m.contexts[a].pc.Holding? && !m.contexts[a].pc.Clearing?
    requires Step(Seen(m, a), KeyOf(a), op) == Moved(Seen(m, a), KeyOf(a), pc)
    ensures Moves(m, StepBy(m, a, op), a, m.slots, m.contexts[a].(pc := pc), Look(m.records, a))
  {
    StepByIs(m, a, op);
  }

  lemma Claims(m: State, a: nat) returns (es: seq<Event>, n: State)
    requires a in m.contexts && m.contexts[a].pc.Claiming? && InTable(m.contexts[a].pc)
    ensures Leads(m, es, n)
    ensures var x := m.contexts[a];
      Moves(m, n, a, m.slots, x.(pc := Claim(m, KeyOf(a), x.op, x.pc.f)), Look(m.records, a))
  {
    es, n := Steps(m, [], m, a, Release);
  }

  lemma Swaps(m: State, a: nat, f: nat) returns (es: seq<Event>, n: State)
    requires a in m.contexts && f < CONTEXTS && m.contexts[a].pc == Swapping(f, m.slots[f].key)
    ensures Leads(m, es, n)
    ensures Moves(m, n, a, m.slots[f := m.slots[f].(key := KeyOf(a))], m.contexts[a].(pc := Holding(f)),
        Some(Record(0, 0)))
  {
    es, n := Steps(m, [], m, a, Release);
  }

  lemma Stores(m: State, a: nat, x: nat, v: int) returns (es: seq<Event>, n: State)
    requires a in m.contexts && x < CONTEXTS && m.contexts[a].pc == Holding(x) && m.contexts[a].op == SetTp(v)
    requires a in m.records
    ensures Leads(m, es, n)
    ensures Moves(m, n, a, m.slots[x := m.slots[x].(tp := v)], m.contexts[a].(pc := Recording),
        Some(m.records[a].(tp := v)))
  {
    es, n := Steps(m, [], m, a, Release);
  }

  lemma Records(m: State, a: nat) returns (es: seq<Event>, n: State)
    requires a in m.contexts && m.contexts[a].pc == Recording
    ensures Leads(m, es, n) && n.recorded
    ensures Moves(m, n, a, m.slots, m.contexts[a].(pc := Returned(Done)), Look(m.records, a))
  {
    es, n := Steps(m, [], m, a, Release);
  }

  /** Two steps of one context, together. */
  lemma MovesOn(m: State, n: State, o: State, a: nat, slots: Table, slots': Table, x: Context, y: Context,
                r: Option<Record>, q: Option<Record>)
    requires Moves(m, n, a, slots, x, r) && Moves(n, o, a, slots', y, q)
    ensures Moves(m, o, a, slots', y, q)
  {
  }

  lemma TakesEntry(m: State, a: nat, f: nat) returns (es: seq<Event>, n: State)
    requires a in m.contexts && f < CONTEXTS && m.contexts[a].pc == Claiming(f)
    requires m.slots[f].key != KeyOf(a) && !IsKey(m.slots[f].key)
    ensures Leads(m, es, n)
    ensures Moves(m, n, a, m.slots[f := m.slots[f].(key := KeyOf(a))], m.contexts[a].(pc := Holding(f)),
        Some(Record(0, 0)))
  {
    var e1, m1 := Claims(m, a);
    var e2;
    e2, n := Swaps(m1, a, f);
    es := e1 + e2;
    Then(m, e1, m1, e2, n);
    MovesOn(m, m1, n, a, m.slots, n.slots, m1.contexts[a], n.contexts[a], Look(m.records, a), Some(Record(0, 0)));
  }

  lemma StoresIn(m: State, a: nat, f: nat, v: int) returns (es: seq<Event>, n: State)
    requires a in m.contexts && f < CONTEXTS && m.contexts[a].pc == Holding(f) && m.contexts[a].op == SetTp(v)
    requires a in m.records
    ensures Leads(m, es, n) && n.recorded
    ensures Moves(m, n, a, m.slots[f := m.slots[f].(tp := v)], m.contexts[a].(pc := Returned(Done)),
        Some(m.records[a].(tp := v)))
  {
    var e1, m1 := Stores(m, a, f, v);
    var e2;
    e2, n := Records(m1, a);
    es := e1 + e2;
    Then(m, e1, m1, e2, n);
    MovesOn(m, m1, n, a, m1.slots, n.slots, m1.contexts[a], n.contexts[a], Some(m.records[a].(tp := v)),
        Look(m1.records, a));
  }

  /** From a claim to the end of a call that stores. */
  lemma StoresAt(m: State, a: nat, f: nat, v: int) returns (es: seq<Event>, n: State)
    requires a in m.contexts && f < CONTEXTS && m.contexts[a].pc == Claiming(f) && m.contexts[a].op == SetTp(v)
    requires m.slots[f].key != KeyOf(a) && !IsKey(m.slots[f].key)
    ensures Leads(m, es, n) && n.recorded
    ensures Moves(m, n, a, m.slots[f := m.slots[f].(key := KeyOf(a), tp := v)], m.contexts[a].(pc := Returned(Done)),
        Some(Record(v, 0)))
  {
    var e1, m1 := TakesEntry(m, a, f);
    var e2;
    e2, n := StoresIn(m1, a, f, v);
    es := e1 + e2;
    Then(m, e1, m1, e2, n);
    MovesOn(m, m1, n, a, m1.slots, n.slots, m1.contexts[a], n.contexts[a], Some(Record(0, 0)), Some(Record(v, 0)));
    assert n.slots == m.slots[f := m.slots[f].(key := KeyOf(a), tp := v)];
  }

  /** A call that has come to its first probe. */
  lemma StartsAndProbes(m: State, a: nat, op: Op) returns (es: seq<Event>, n: State)
    requires a in m.contexts && m.contexts[a].pc.Returned? && m.contexts[a].pc != Returned(Aborted)
    ensures Leads(m, es, n)
    ensures var x := Context(op, Look(m.records, a), Probe(m, KeyOf(a), op, StartAt(KeyOf(a)), 0, None));
      Moves(m, n, a, m.slots, x, Look(m.records, a))
  {
    var e1, m1 := StartsCall(m, a, op);
    var e2;
    e2, n := Probes(m1, a);
    es := e1 + e2;
    Then(m, e1, m1, e2, n);
    MovesOn(m, m1, n, a, m1.slots, n.slots, m1.contexts[a], n.contexts[a], Look(m.records, a), Look(m1.records, a));
  }

  /** A first store, in an entry that is free. */
  lemma StoresFirst(m: State, a: nat, v: int) returns (es: seq<Event>, n: State)
    requires Begins(m) && a in m.contexts
    ensures Leads(m, es, n) && n.recorded
    ensures Moves(m, n, a, m.slots[StartAt(KeyOf(a)) := Slot(KeyOf(a), v, 0)], Context(SetTp(v), None, Returned(Done)),
        Some(Record(v, 0)))
  {
    var e1, m1 := StartsAndProbes(m, a, SetTp(v));
    var e2;
    e2, n := StoresAt(m1, a, StartAt(KeyOf(a)), v);
    es := e1 + e2;
    Then(m, e1, m1, e2, n);
    MovesOn(m, m1, n, a, m1.slots, n.slots, m1.contexts[a], n.contexts[a], None, Some(Record(v, 0)));
  }

  lemma ReadsAt(m: State, a: nat, x: nat) returns (es: seq<Event>, n: State)
    requires a in m.contexts && x < CONTEXTS && m.contexts[a].pc == Holding(x) && m.contexts[a].op == GetTp
    ensures Leads(m, es, n) && a in n.contexts && n.contexts[a] == m.contexts[a].(pc := Returned(Value(m.slots[x].tp)))
  {
    es, n := Steps(m, [], m, a, Release);
  }

  /** Zero and the word that stands for it: the one reads what the other stored. */
  lemma OneEntryForTwo(m: State, v: int) returns (es: seq<Event>)
    requires Begins(m) && 0 in m.contexts && ZERO in m.contexts
    ensures RunsBy(m, es) && ZERO in AfterBy(m, es).contexts
    ensures AfterBy(m, es).contexts[ZERO] == Context(GetTp, None, Returned(Value(v)))
  {
    assert KeyOf(0) == KeyOf(ZERO);
    var i := StartAt(KeyOf(0));
    var e1, m1 := StoresFirst(m, 0, v);
    var e2, m2 := StartsAndProbes(m1, ZERO, GetTp);
    Then(m, e1, m1, e2, m2);
    var e3, m3 := ReadsAt(m2, ZERO, i);
    es := e1 + e2 + e3;
    Then(m, e1 + e2, m2, e3, m3);
  }

  lemma FindsNone(m: State, a: nat) returns (es: seq<Event>, n: State)
    requires a in m.contexts && m.contexts[a].pc == Missing && m.contexts[a].op == GetTp && m.recorded
    ensures Leads(m, es, n) && a in n.contexts && n.contexts[a] == m.contexts[a].(pc := Returned(Aborted))
  {
    es, n := Steps(m, [], m, a, Release);
  }

  /** The first entry is another's or retired, and the second free. */
  lemma SecondIsFree(m: State, k: nat, op: Op)
    requires m.slots[At(k, 0)].key != k && m.slots[At(k, 0)].key != FREE && m.slots[At(k, 1)].key == FREE && k != FREE
    ensures StartAt(k) == At(k, 0)
    ensures var free := if m.slots[At(k, 0)].key == RETIRED then Some(At(k, 0)) else None;
      && Probe(m, k, op, At(k, 0), 0, None) == Probing(At(k, 1), 1, free)
      && Probe(m, k, op, At(k, 1), 1, free)
           == if !Creates(op) then Missing else Claiming(if free.Some? then free.value else At(k, 1))
  {
    Following(k, 0);
  }

  /** A call that passes the first entry and comes to one that is free. */
  lemma PassesOne(m: State, a: nat, op: Op) returns (es: seq<Event>, n: State)
    requires a in m.contexts && m.contexts[a].pc.Returned? && m.contexts[a].pc != Returned(Aborted)
    requires var k := KeyOf(a);
      m.slots[At(k, 0)].key != k && m.slots[At(k, 0)].key != FREE && m.slots[At(k, 1)].key == FREE
    ensures Leads(m, es, n)
    ensures var k := KeyOf(a);
      var pc := if !Creates(op) then Missing
          else Claiming(if m.slots[At(k, 0)].key == RETIRED then At(k, 0) else At(k, 1));
      Moves(m, n, a, m.slots, Context(op, Look(m.records, a), pc), Look(m.records, a))
  {
    SecondIsFree(m, KeyOf(a), op);
    var e1, m1 := StartsAndProbes(m, a, op);
    var e2;
    e2, n := Probes(m1, a);
    es := e1 + e2;
    Then(m, e1, m1, e2, n);
    MovesOn(m, m1, n, a, m1.slots, n.slots, m1.contexts[a], n.contexts[a], Look(m.records, a), Look(m1.records, a));
  }

  /** A context claims an entry that the word for a retired one marks. */
  lemma TakesMarked(m: State, j: nat, i: nat, w: int) returns (es: seq<Event>, n: State)
    requires j in m.contexts && m.contexts[j].pc.Returned? && m.contexts[j].pc != Returned(Aborted)
    requires i == At(KeyOf(j), 0) && m.slots[i].key == RETIRED && m.slots[At(KeyOf(j), 1)].key == FREE
    requires KeyOf(j) != RETIRED
    ensures Leads(m, es, n) && n.recorded
    ensures Moves(m, n, j, m.slots[i := m.slots[i].(key := KeyOf(j), tp := w)],
        Context(SetTp(w), Look(m.records, j), Returned(Done)), Some(Record(w, 0)))
  {
    var e1, m1 := PassesOne(m, j, SetTp(w));
    var e2;
    e2, n := StoresAt(m1, j, i, w);
    es := e1 + e2;
    Then(m, e1, m1, e2, n);
    MovesOn(m, m1, n, j, m1.slots, n.slots, m1.contexts[j], n.contexts[j], Look(m.records, j), Some(Record(w, 0)));
  }

  lemma LooksInVain(m: State, a: nat) returns (es: seq<Event>, n: State)
    requires a in m.contexts && m.contexts[a].pc.Returned? && m.contexts[a].pc != Returned(Aborted) && m.recorded
    requires var k := KeyOf(a);
      m.slots[At(k, 0)].key != k && m.slots[At(k, 0)].key != FREE && m.slots[At(k, 1)].key == FREE
    ensures Leads(m, es, n) && a in n.contexts && n.contexts[a] == Context(GetTp, Look(m.records, a), Returned(Aborted))
  {
    var e1, m1 := PassesOne(m, a, GetTp);
    var e2;
    e2, n := FindsNone(m1, a);
    es := e1 + e2;
    Then(m, e1, m1, e2, n);
  }

  lemma FromStart(k: nat, i: nat)
    requires StartAt(k) == i && i + 1 < CONTEXTS
    ensures At(k, 0) == i && At(k, 1) == i + 1
  {
  }

  /** The word for a retired entry: another context takes the entry, and what was stored there is gone. */
  lemma RetiredIsTaken(m: State, v: int, w: int) returns (es: seq<Event>)
    requires Begins(m) && RETIRED in m.contexts && 747 in m.contexts
    ensures RunsBy(m, es) && RETIRED in AfterBy(m, es).contexts
    ensures AfterBy(m, es).contexts[RETIRED] == Context(GetTp, Some(Record(v, 0)), Returned(Aborted))
  {
    StartIs(747, 0x1cd, 0xabe03046, 0x6e581147, 0x55f018, 70);
    StartIs(RETIRED, 0x9e3779b97f4a7c14, 0x61c88646, 0x80b583eb, 0x30e443, 70);
    FromStart(747, 70);
    FromStart(RETIRED, 70);
    var e1, m1 := StoresFirst(m, RETIRED, v);
    var e2, m2 := TakesMarked(m1, 747, 70, w);
    Then(m, e1, m1, e2, m2);
    var e3, m3 := LooksInVain(m2, RETIRED);
    es := e1 + e2 + e3;
    Then(m, e1 + e2, m2, e3, m3);
  }
}
