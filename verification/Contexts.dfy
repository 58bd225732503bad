/**
  The state kept for each execution context: an open-addressed table that contexts search, claim
  entries of and retire entries of at the same time, without a lock. Each load, store and
  compare-and-swap is one step, and a run interleaves the steps of any number of contexts.
*/
module Contexts {
  import opened Options

  const CONTEXTS: nat := 512
  const FREE: nat := 0
  const RETIRED: nat := 0xffff_ffff_ffff_ffff
  const ZERO: nat := 0xffff_ffff_ffff_fffe

  /** The key under which an identity is stored: itself, or `ZERO` for the identity whose own word means a free
      entry. */
  function KeyOf(identity: nat): (k: nat)
    ensures k != FREE
  {
    if identity != 0 then identity else ZERO
  }

  function StartAt(key: nat): (i: nat)
    ensures i < CONTEXTS
  {
    key * 0x9E3779B97F4A7C15 % 0x1_0000_0000_0000_0000 / 0x1_0000_0000 % CONTEXTS
  }

  /** The entry at such a distance along the probe sequence of a key. */
  function At(key: nat, d: nat): (i: nat)
    ensures i < CONTEXTS
  {
    (StartAt(key) + d) % CONTEXTS
  }

  datatype Slot = Slot(key: nat, tp: int, self: int)

  type Table = s: seq<Slot> | |s| == CONTEXTS witness seq(CONTEXTS, _ => Slot(0, 0, 0))

  /** What a context has stored, by itself. */
  datatype Record = Record(tp: int, self: int)

  datatype Op = GetTp | GetSelf | SetTp(v: int) | SetSelf(v: int) | Release

  datatype Outcome = Value(v: int) | Done | Refused | Aborted

  /** Where a context is in the call it makes. */
  datatype Pc =
    | Returned(out: Outcome)
    | Probing(i: nat, n: nat, free: Option<nat>)
    | Claiming(f: nat)
    | Swapping(f: nat, expected: nat)
    | Holding(x: nat)
    | Recording
    | Clearing(x: nat)
    | Retiring(x: nat)
    | Missing

  /** A context: the call it makes or made last, what it had stored when it made it, where it is. */
  datatype Context = Context(op: Op, was: Option<Record>, pc: Pc)

  datatype State = State(slots: Table, recorded: bool, contexts: map<nat, Context>, records: map<nat, Record>)

  predicate Creates(op: Op) { op.SetTp? || op.SetSelf? }

  function Look(records: map<nat, Record>, c: nat): Option<Record> {
    if c in records then Some(records[c]) else None
  }

  /** What a call answers when there is no entry and none can be had. */
  function Failed(op: Op): Outcome { if op.SetTp? then Aborted else Refused }

  /** One probe, of entry `i`. */
  function Probe(s: State, c: nat, op: Op, i: nat, n: nat, free: Option<nat>): Pc
    requires i < CONTEXTS
  {
    var k := s.slots[i].key;
    if k == c then Holding(i)
    else if k == FREE then (if !Creates(op) then Missing else Claiming(if free.Some? then free.value else i))
    else
      var free' := if k == RETIRED && free.None? then Some(i) else free;
      if n + 1 < CONTEXTS then Probing((i + 1) % CONTEXTS, n + 1, free')
      else if !Creates(op) then Missing
      else if free'.None? then Returned(Failed(op))
      else Claiming(free'.value)
  }

  function Claim(s: State, c: nat, op: Op, f: nat): Pc
    requires f < CONTEXTS
  {
    var k := s.slots[f].key;
    if k == c then Holding(f)
    else if k != FREE && k != RETIRED then Returned(Failed(op))
    else Swapping(f, k)
  }

  /** The state after a context has moved to another point of its call. */
  function Moved(s: State, c: nat, pc: Pc): State
    requires c in s.contexts
  {
    s.(contexts := s.contexts[c := s.contexts[c].(pc := pc)])
  }

  function Written(s: State, c: nat, x: nat, slot: Slot, r: Record): State
    requires x < CONTEXTS
  {
    s.(slots := s.slots[x := slot], records := s.records[c := r])
  }

  /** What holding one's entry leads to. */
  function Used(s: State, c: nat, op: Op, x: nat): State
    requires c in s.contexts && x < CONTEXTS && c in s.records
  {
    var slot, r := s.slots[x], s.records[c];
    match op
    case GetTp => Moved(s, c, Returned(Value(slot.tp)))
    case GetSelf => Moved(s, c, Returned(Value(slot.self)))
    case SetTp(v) => Moved(Written(s, c, x, slot.(tp := v), r.(tp := v)), c, Recording)
    case SetSelf(v) => Moved(Written(s, c, x, slot.(self := v), r.(self := v)), c, Returned(Done))
    case Release => Moved(Written(s, c, x, slot.(tp := 0), r.(tp := 0)), c, Clearing(x))
  }

  /** The steps are made by contexts that are at points that exist. */
  predicate InTable(pc: Pc) {
    && (pc.Probing? ==> pc.i < CONTEXTS && pc.n < CONTEXTS)
    && (pc.Claiming? || pc.Swapping? ==> pc.f < CONTEXTS)
    && (pc.Holding? || pc.Clearing? || pc.Retiring? ==> pc.x < CONTEXTS)
  }

  /** A context may step, unless it aborted. */
  predicate Enabled(s: State, c: nat) {
    && c in s.contexts && InTable(s.contexts[c].pc) && s.contexts[c].pc != Returned(Aborted)
    && (s.contexts[c].pc.Holding? || s.contexts[c].pc.Clearing? ==> c in s.records)
  }

  /** One step of one context; `op` is the call it makes next, if it is making none. */
  function Step(s: State, c: nat, op: Op): State
    requires Enabled(s, c)
  {
    var me := s.contexts[c];
    match me.pc
    case Returned(_) =>
      s.(contexts := s.contexts[c := Context(op, Look(s.records, c), Probing(StartAt(c), 0, None))])
    case Probing(i, n, free) => Moved(s, c, Probe(s, c, me.op, i, n, free))
    case Claiming(f) => Moved(s, c, Claim(s, c, me.op, f))
    case Swapping(f, expected) =>
      if s.slots[f].key == expected
      then Moved(Written(s, c, f, s.slots[f].(key := c), Record(0, 0)), c, Holding(f))
      else Moved(s, c, Returned(Failed(me.op)))
    case Holding(x) => Used(s, c, me.op, x)
    case Recording => Moved(s.(recorded := true), c, Returned(Done))
    case Clearing(x) => Moved(Written(s, c, x, s.slots[x].(self := 0), s.records[c].(self := 0)), c, Retiring(x))
    case Retiring(x) =>
      Moved(s.(slots := s.slots[x := s.slots[x].(key := RETIRED)], records := s.records - {c}), c, Returned(Done))
    case Missing =>
      Moved(s, c, Returned(match me.op
                           case GetTp => if s.recorded then Aborted else Value(0)
                           case GetSelf => Value(0)
                           case _ => Done))
  }

  // --- what holds of the table ---

  predicate IsKey(k: nat) { k != FREE && k != RETIRED }

  /** Nothing before such a distance is free: a search for the key goes on at least so far. */
  ghost predicate Chain(slots: Table, k: nat, d: nat) {
    forall e {:trigger At(k, e)} :: 0 <= e < d ==> slots[At(k, e)].key != FREE
  }

  ghost predicate Unique(slots: Table) {
    forall a, b :: 0 <= a < CONTEXTS && 0 <= b < CONTEXTS && IsKey(slots[a].key) && slots[a].key == slots[b].key ==>
        a == b
  }

  ghost predicate UnclaimedZero(slots: Table) {
    forall a :: 0 <= a < CONTEXTS && !IsKey(slots[a].key) ==> slots[a].tp == 0 && slots[a].self == 0
  }

  ghost predicate Unbroken(slots: Table) {
    forall k: nat, d: nat {:trigger At(k, d)} :: IsKey(k) && d < CONTEXTS && slots[At(k, d)].key == k ==>
        Chain(slots, k, d)
  }

  ghost predicate Sound(slots: Table) { Unique(slots) && UnclaimedZero(slots) && Unbroken(slots) }

  ghost predicate Absent(slots: Table, c: nat) {
    forall a :: 0 <= a < CONTEXTS ==> slots[a].key != c
  }

  /** A context's entry is there exactly while it has a record, and holds what the record does. */
  ghost predicate Settled(slots: Table, records: map<nat, Record>, c: nat) {
    && (forall a :: 0 <= a < CONTEXTS && slots[a].key == c ==>
          c in records && slots[a] == Slot(c, records[c].tp, records[c].self))
    && (c in records ==> exists a :: 0 <= a < CONTEXTS && slots[a].key == c)
  }

  /** A place a context may claim: its search would reach it. */
  ghost predicate Claimable(slots: Table, c: nat, f: nat) {
    exists m: nat {:trigger At(c, m)} :: m < CONTEXTS && f == At(c, m) && Chain(slots, c, m)
  }

  /** A call behaves as it would on a record of the context's own, that no other context touches. A
      call that has to make an entry may fail, and then changes nothing; no other call may. */
  predicate Behaves(was: Option<Record>, op: Op, out: Outcome, now: Option<Record>) {
    var r := if was.Some? then was.value else Record(0, 0);
    match op
    case GetTp => now == was && (out == Value(r.tp) || (was.None? && out == Aborted))
    case GetSelf => now == was && out == Value(r.self)
    case SetTp(v) => (out == Done && now == Some(r.(tp := v))) || (was.None? && out == Aborted && now == None)
    case SetSelf(v) => (out == Done && now == Some(r.(self := v))) || (was.None? && out == Refused && now == None)
    case Release => out == Done && now == None
  }

  /** What holds of a context where it is. */
  ghost predicate Local(slots: Table, records: map<nat, Record>, c: nat, me: Context) {
    && Settled(slots, records, c) && InTable(me.pc)
    && match me.pc
       case Returned(out) => Behaves(me.was, me.op, out, Look(records, c))
       case Probing(i, n, free) =>
         && i == At(c, n) && Look(records, c) == me.was && Chain(slots, c, n)
         && (forall e {:trigger At(c, e)} :: 0 <= e < n ==> slots[At(c, e)].key != c)
         && (free.Some? ==> free.value < CONTEXTS && Claimable(slots, c, free.value))
       case Claiming(f) => Creates(me.op) && c !in records && me.was == None && Claimable(slots, c, f)
       case Swapping(f, expected) =>
         Creates(me.op) && c !in records && me.was == None && Claimable(slots, c, f) && !IsKey(expected)
       case Holding(x) =>
         && slots[x].key == c
         && (me.was.Some? ==> Look(records, c) == me.was)
         && (me.was.None? ==> Look(records, c) == Some(Record(0, 0)) && Creates(me.op))
       case Recording =>
         me.op.SetTp? && Look(records, c) == Some((if me.was.Some? then me.was.value else Record(0, 0)).(tp := me.op.v))
       case Clearing(x) => me.op.Release? && slots[x].key == c && slots[x].tp == 0
       case Retiring(x) => me.op.Release? && slots[x].key == c && slots[x].tp == 0 && slots[x].self == 0
       case Missing => !Creates(me.op) && c !in records && me.was == None
  }

  ghost predicate Inv(s: State) {
    && Sound(s.slots)
    && (forall a :: 0 <= a < CONTEXTS && IsKey(s.slots[a].key) ==> s.slots[a].key in s.contexts)
    && (forall c :: c in s.contexts ==> IsKey(c) && Local(s.slots, s.records, c, s.contexts[c]))
  }

  // --- the probe sequence ---

  /** It reaches every entry, each once. */
  lemma Reaches(k: nat, a: nat) returns (d: nat)
    requires a < CONTEXTS
    ensures d < CONTEXTS && At(k, d) == a
  {
    var s := StartAt(k);
    d := if s <= a then a - s else a + CONTEXTS - s;
  }

  lemma Once(k: nat, d: nat, e: nat)
    requires d < CONTEXTS && e < CONTEXTS && At(k, d) == At(k, e)
    ensures d == e
  {
  }

  lemma Following(k: nat, d: nat)
    ensures At(k, d + 1) == (At(k, d) + 1) % CONTEXTS
  {
  }

  /** Where a key's search starts, the division done. */
  lemma StartIs(k: nat, q: nat, h: nat, l: nat, g: nat, i: nat)
    requires k * 0x9E3779B97F4A7C15 == q * 0x1_0000_0000_0000_0000 + h * 0x1_0000_0000 + l
    requires l < 0x1_0000_0000 && h == g * CONTEXTS + i && h < 0x1_0000_0000 && i < CONTEXTS
    ensures StartAt(k) == i
  {
    var r := h * 0x1_0000_0000 + l;
    Quotient(k * 0x9E3779B97F4A7C15, 0x1_0000_0000_0000_0000, q, r);
    Quotient(r, 0x1_0000_0000, h, l);
    Quotient(h, CONTEXTS, g, i);
  }

  lemma Quotient(x: nat, d: nat, q: nat, r: nat)
    requires r < d && x == q * d + r
    ensures x / d == q && x % d == r
  {
    Divides(x, d);
    OneQuotient(x / d, x % d, q, r, d);
  }

  lemma Divides(x: nat, d: nat)
    requires 0 < d
    ensures x == x / d * d + x % d && x % d < d
  {
  }

  lemma OneQuotient(a: nat, b: nat, q: nat, r: nat, d: nat)
    requires a * d + b == q * d + r && b < d && r < d
    ensures a == q && b == r
  {
    if a < q { Less(a, q, d); }
    if q < a { Less(q, a, d); }
  }

  lemma Less(a: nat, q: nat, d: nat)
    requires a < q
    ensures a * d + d <= q * d
  {
    var x := q - a - 1;
    assert q * d == a * d + d + x * d;
    assert x * d >= 0;
  }

  // --- what a step does to the table, as others see it ---

  /** The word is a key, and not this context's. */
  predicate Others(key: nat, c: nat) { IsKey(key) && key != c }

  /** Nothing is freed, and no entry of another context appears, changes or goes. */
  ghost predicate Rely(was: Table, now: Table, c: nat) {
    && (forall a :: 0 <= a < CONTEXTS && was[a].key != FREE ==> now[a].key != FREE)
    && (forall a :: 0 <= a < CONTEXTS && (Others(was[a].key, c) || Others(now[a].key, c)) ==> now[a] == was[a])
  }

  lemma ClaimKeeps(slots: Table, c: nat, f: nat, m: nat, now: Table)
    requires Sound(slots) && IsKey(c) && Absent(slots, c) && f < CONTEXTS && !IsKey(slots[f].key)
    requires m < CONTEXTS && f == At(c, m) && Chain(slots, c, m) && now == slots[f := slots[f].(key := c)]
    ensures Sound(now) && Rely(slots, now, c)
  {
    forall k: nat, d: nat {:trigger At(k, d)} | IsKey(k) && d < CONTEXTS && now[At(k, d)].key == k
      ensures Chain(now, k, d)
    {
      if k == c {
        Once(c, d, m);
      } else {
        assert Chain(slots, k, d);
      }
    }
  }

  lemma StoreKeeps(slots: Table, c: nat, x: nat, now: Table)
    requires Sound(slots) && IsKey(c) && x < CONTEXTS && slots[x].key == c && now == slots[x := now[x]]
    requires now[x].key == c
    ensures Sound(now) && Rely(slots, now, c)
  {
    forall k: nat, d: nat {:trigger At(k, d)} | IsKey(k) && d < CONTEXTS && now[At(k, d)].key == k
      ensures Chain(now, k, d)
    {
      assert Chain(slots, k, d);
    }
  }

  lemma RetireKeeps(slots: Table, c: nat, x: nat, now: Table)
    requires Sound(slots) && IsKey(c) && x < CONTEXTS && slots[x].key == c && slots[x].tp == 0 && slots[x].self == 0
    requires now == slots[x := slots[x].(key := RETIRED)]
    ensures Sound(now) && Rely(slots, now, c) && Absent(now, c)
  {
    forall k: nat, d: nat {:trigger At(k, d)} | IsKey(k) && d < CONTEXTS && now[At(k, d)].key == k
      ensures Chain(now, k, d)
    {
      assert Chain(slots, k, d);
    }
  }

  /** What another context knows of the table stays true. */
  lemma OthersKeep(was: Table, now: Table, records: map<nat, Record>, records': map<nat, Record>, c: nat, k: nat,
                   other: Context)
    requires Rely(was, now, c) && k != c && IsKey(k) && Look(records, k) == Look(records', k)
    requires Local(was, records, k, other)
    ensures Local(now, records', k, other)
  {
    assert Settled(now, records', k) by {
      if k in records' {
        assert k in records;
        var a :| 0 <= a < CONTEXTS && was[a].key == k;
        assert now[a] == was[a];
      }
    }
  }

  // --- each step of a context, as it sees it ---

  /** A search that meets a free entry, or has been everywhere, has not missed its own. */
  lemma NowhereElse(slots: Table, c: nat, n: nat)
    requires Sound(slots) && IsKey(c) && n <= CONTEXTS
    requires forall e {:trigger At(c, e)} :: 0 <= e < n ==> slots[At(c, e)].key != c
    requires n < CONTEXTS ==> slots[At(c, n)].key == FREE
    ensures Absent(slots, c)
  {
    forall a | 0 <= a < CONTEXTS ensures slots[a].key != c {
      var d := Reaches(c, a);
      assert slots[At(c, d)].key == c ==> Chain(slots, c, d);
    }
  }

  /** An entry met before the end of the search may be claimed. */
  lemma MayClaim(slots: Table, c: nat, n: nat)
    requires n < CONTEXTS && Chain(slots, c, n)
    ensures Claimable(slots, c, At(c, n))
  {
  }

  /** What a context needs to know in order to step. */
  ghost predicate Knows(s: State, c: nat) {
    Sound(s.slots) && IsKey(c) && c in s.contexts && Local(s.slots, s.records, c, s.contexts[c])
  }

  lemma ProbeOn(s: State, c: nat, i: nat, n: nat, free: Option<nat>)
    requires c in s.contexts && Local(s.slots, s.records, c, s.contexts[c])
    requires s.contexts[c].pc == Probing(i, n, free) && n + 1 < CONTEXTS
    requires s.slots[i].key != c && s.slots[i].key != FREE
    ensures Local(s.slots, s.records, c, s.contexts[c].(pc := Probe(s, c, s.contexts[c].op, i, n, free)))
  {
    MayClaim(s.slots, c, n);
    PassedOne(s.slots, c, n);
  }

  /** An entry more has been passed. */
  lemma PassedOne(slots: Table, c: nat, n: nat)
    requires Chain(slots, c, n) && slots[At(c, n)].key != FREE
    ensures Chain(slots, c, n + 1) && At(c, n + 1) == (At(c, n) + 1) % CONTEXTS
  {
    Following(c, n);
  }

  lemma ProbeLocal(s: State, c: nat, i: nat, n: nat, free: Option<nat>)
    requires Knows(s, c) && s.contexts[c].pc == Probing(i, n, free)
    ensures Local(s.slots, s.records, c, s.contexts[c].(pc := Probe(s, c, s.contexts[c].op, i, n, free)))
  {
    var k := s.slots[i].key;
    MayClaim(s.slots, c, n);
    if k == c {
    } else if k == FREE {
      NowhereElse(s.slots, c, n);
    } else if n + 1 == CONTEXTS {
      NowhereElse(s.slots, c, n + 1);
    } else {
      ProbeOn(s, c, i, n, free);
    }
  }

  /** All that a step of a context has to keep. */
  ghost predicate Kept(s: State, t: State, c: nat) {
    && c in s.contexts && t.contexts.Keys == s.contexts.Keys
    && Sound(t.slots) && Rely(s.slots, t.slots, c)
    && (forall k :: k != c ==> Look(t.records, k) == Look(s.records, k))
    && (forall k :: k in s.contexts && k != c ==> t.contexts[k] == s.contexts[k])
    && Local(t.slots, t.records, c, t.contexts[c])
  }

  /** Where nothing is written, what has to be kept is what the context knows where it goes. */
  lemma MovedKeeps(s: State, c: nat, pc: Pc)
    requires Knows(s, c) && Local(s.slots, s.records, c, s.contexts[c].(pc := pc))
    ensures Kept(s, Moved(s, c, pc), c)
  {
  }

  /** A claimed entry holds what a new record does: nothing. */
  lemma ClaimedSettles(slots: Table, records: map<nat, Record>, c: nat, f: nat, now: Table)
    requires Sound(slots) && IsKey(c) && Settled(slots, records, c) && c !in records && f < CONTEXTS
    requires !IsKey(slots[f].key)
    requires now == slots[f := slots[f].(key := c)]
    ensures Settled(now, records[c := Record(0, 0)], c) && Absent(slots, c)
  {
    assert now[f].key == c;
  }

  /** A store to a context's own entry and the same to its record. */
  lemma StoredSettles(slots: Table, records: map<nat, Record>, c: nat, x: nat, r: Record, now: Table)
    requires Sound(slots) && IsKey(c) && Settled(slots, records, c) && x < CONTEXTS && slots[x].key == c
    requires now == slots[x := Slot(c, r.tp, r.self)]
    ensures Settled(now, records[c := r], c)
  {
    assert now[x].key == c;
    forall a | 0 <= a < CONTEXTS && now[a].key == c ensures a == x {
      assert slots[a].key == c;
    }
  }

  lemma SwapKeeps(s: State, c: nat, f: nat)
    requires Knows(s, c) && f < CONTEXTS && s.contexts[c].pc == Swapping(f, s.slots[f].key)
    ensures Kept(s, Moved(Written(s, c, f, s.slots[f].(key := c), Record(0, 0)), c, Holding(f)), c)
  {
    var m: nat :| m < CONTEXTS && f == At(c, m) && Chain(s.slots, c, m);
    var now := s.slots[f := s.slots[f].(key := c)];
    ClaimedSettles(s.slots, s.records, c, f, now);
    ClaimKeeps(s.slots, c, f, m, now);
  }

  lemma WriteKeeps(s: State, c: nat, x: nat, slot: Slot, r: Record, pc: Pc)
    requires Knows(s, c) && x < CONTEXTS && s.slots[x].key == c && slot == Slot(c, r.tp, r.self) && InTable(pc)
    requires Settled(s.slots[x := slot], s.records[c := r], c) ==>
               Local(s.slots[x := slot], s.records[c := r], c, s.contexts[c].(pc := pc))
    ensures Kept(s, Moved(Written(s, c, x, slot, r), c, pc), c)
  {
    StoredSettles(s.slots, s.records, c, x, r, s.slots[x := slot]);
    StoreKeeps(s.slots, c, x, s.slots[x := slot]);
  }

  lemma UseKeeps(s: State, c: nat, x: nat)
    requires Knows(s, c) && s.contexts[c].pc == Holding(x) && c in s.records
    ensures Kept(s, Used(s, c, s.contexts[c].op, x), c)
  {
    var slot, r := s.slots[x], s.records[c];
    assert slot == Slot(c, r.tp, r.self);
    match s.contexts[c].op
    case GetTp => MovedKeeps(s, c, Returned(Value(slot.tp)));
    case GetSelf => MovedKeeps(s, c, Returned(Value(slot.self)));
    case SetTp(v) => WriteKeeps(s, c, x, slot.(tp := v), r.(tp := v), Recording);
    case SetSelf(v) => WriteKeeps(s, c, x, slot.(self := v), r.(self := v), Returned(Done));
    case Release => WriteKeeps(s, c, x, slot.(tp := 0), r.(tp := 0), Clearing(x));
  }

  lemma ClearKeeps(s: State, c: nat, x: nat)
    requires Knows(s, c) && s.contexts[c].pc == Clearing(x) && c in s.records
    ensures Kept(s, Moved(Written(s, c, x, s.slots[x].(self := 0), s.records[c].(self := 0)), c, Retiring(x)), c)
  {
    WriteKeeps(s, c, x, s.slots[x].(self := 0), s.records[c].(self := 0), Retiring(x));
  }

  lemma RetiringKeeps(s: State, c: nat, op: Op)
    requires Knows(s, c) && Enabled(s, c) && s.contexts[c].pc.Retiring?
    ensures Kept(s, Step(s, c, op), c)
  {
    RetireKeeps(s.slots, c, s.contexts[c].pc.x, Step(s, c, op).slots);
  }

  lemma StartsHere(s: State, c: nat, op: Op)
    requires Knows(s, c) && Enabled(s, c) && s.contexts[c].pc.Returned?
    ensures Kept(s, Step(s, c, op), c)
  {
    assert At(c, 0) == StartAt(c);
  }

  lemma ClaimingKeeps(s: State, c: nat, f: nat)
    requires Knows(s, c) && s.contexts[c].pc == Claiming(f)
    ensures Kept(s, Moved(s, c, Claim(s, c, s.contexts[c].op, f)), c)
  {
    MovedKeeps(s, c, Claim(s, c, s.contexts[c].op, f));
  }

  lemma MissingKeeps(s: State, c: nat, op: Op)
    requires Knows(s, c) && Enabled(s, c) && s.contexts[c].pc.Missing?
    ensures Kept(s, Step(s, c, op), c)
  {
    MovedKeeps(s, c, Step(s, c, op).contexts[c].pc);
  }

  lemma ProbingKeeps(s: State, c: nat, op: Op)
    requires Knows(s, c) && Enabled(s, c) && s.contexts[c].pc.Probing?
    ensures Kept(s, Step(s, c, op), c)
  {
    var me := s.contexts[c];
    ProbeLocal(s, c, me.pc.i, me.pc.n, me.pc.free);
    MovedKeeps(s, c, Probe(s, c, me.op, me.pc.i, me.pc.n, me.pc.free));
  }

  lemma SwappingKeeps(s: State, c: nat, op: Op)
    requires Knows(s, c) && Enabled(s, c) && s.contexts[c].pc.Swapping?
    ensures Kept(s, Step(s, c, op), c)
  {
    var me := s.contexts[c];
    if s.slots[me.pc.f].key == me.pc.expected {
      SwapKeeps(s, c, me.pc.f);
    } else {
      MovedKeeps(s, c, Returned(Failed(me.op)));
    }
  }

  lemma RecordingKeeps(s: State, c: nat, op: Op)
    requires Knows(s, c) && Enabled(s, c) && s.contexts[c].pc.Recording?
    ensures Kept(s, Step(s, c, op), c)
  {
    MovedKeeps(s, c, Returned(Done));
  }

  lemma EveryStepKeeps(s: State, c: nat, op: Op)
    requires Knows(s, c) && Enabled(s, c)
    ensures Kept(s, Step(s, c, op), c)
  {
    var me := s.contexts[c];
    match me.pc
    case Probing(_, _, _) => ProbingKeeps(s, c, op);
    case Claiming(f) => ClaimingKeeps(s, c, f);
    case Swapping(_, _) => SwappingKeeps(s, c, op);
    case Holding(x) => UseKeeps(s, c, x);
    case Clearing(x) => ClearKeeps(s, c, x);
    case Retiring(_) => RetiringKeeps(s, c, op);
    case Returned(_) => StartsHere(s, c, op);
    case Recording => RecordingKeeps(s, c, op);
    case Missing => MissingKeeps(s, c, op);
  }

  lemma StepKeepsInv(s: State, c: nat, op: Op)
    requires Inv(s) && Enabled(s, c)
    ensures Inv(Step(s, c, op))
  {
    var t := Step(s, c, op);
    EveryStepKeeps(s, c, op);
    forall k | k in t.contexts ensures IsKey(k) && Local(t.slots, t.records, k, t.contexts[k]) {
      if k != c {
        OthersKeep(s.slots, t.slots, s.records, t.records, c, k, s.contexts[k]);
      }
    }
  }

  // --- runs ---

  /** A step of a run: which context, and the call it makes if it makes none yet. */
  datatype Event = Event(c: nat, op: Op)

  predicate Runs(s: State, es: seq<Event>)
    decreases |es|
  {
    es == [] || (Enabled(s, es[0].c) && Runs(Step(s, es[0].c, es[0].op), es[1..]))
  }

  function After(s: State, es: seq<Event>): State
    requires Runs(s, es)
    decreases |es|
  {
    if es == [] then s else After(Step(s, es[0].c, es[0].op), es[1..])
  }

  /** An empty table, and any number of contexts that have made no call but the release of nothing. */
  ghost predicate Initial(s: State) {
    && (forall a :: 0 <= a < CONTEXTS ==> s.slots[a] == Slot(FREE, 0, 0))
    && s.records == map[] && !s.recorded
    && forall c :: c in s.contexts ==> IsKey(c) && s.contexts[c] == Context(Release, None, Returned(Done))
  }

  lemma InitialInv(s: State)
    requires Initial(s)
    ensures Inv(s)
  {
    assert forall k: nat, d: nat {:trigger At(k, d)} :: s.slots[At(k, d)].key == FREE;
  }

  lemma {:induction false} RunKeepsInv(s: State, es: seq<Event>)
    requires Inv(s) && Runs(s, es)
    ensures Inv(After(s, es))
    decreases |es|
  {
    if es != [] {
      StepKeepsInv(s, es[0].c, es[0].op);
      RunKeepsInv(Step(s, es[0].c, es[0].op), es[1..]);
    }
  }

  lemma {:induction false} ReachableInv(s: State, es: seq<Event>)
    requires Initial(s) && Runs(s, es)
    ensures Inv(After(s, es))
  {
    InitialInv(s);
    RunKeepsInv(s, es);
  }

  /** A context has one entry, its search reaches it, and it holds the record. */
  ghost predicate OwnAt(slots: Table, c: nat, r: Record, d: nat) {
    && d < CONTEXTS && Chain(slots, c, d) && slots[At(c, d)] == Slot(c, r.tp, r.self)
    && forall a :: 0 <= a < CONTEXTS && slots[a].key == c ==> a == At(c, d)
  }

  /** The context has one entry, its own, which holds what it stored and which its search reaches, or none
      when it has stored nothing; entries nobody holds are zero; and its last call, if it has returned, did
      what it would have done on a record of the context's own. */
  ghost predicate HasItsOwn(slots: Table, c: nat, r: Option<Record>, me: Context) {
    && (r.Some? ==> exists d: nat {:trigger At(c, d)} :: OwnAt(slots, c, r.value, d))
    && (r.None? ==> Absent(slots, c))
    && UnclaimedZero(slots)
    && (me.pc.Returned? ==> Behaves(me.was, me.op, me.pc.out, r))
  }

  /** In every state that is reached each context has its own, by its key. */
  lemma {:induction false} EveryContextHasItsOwn(s: State, es: seq<Event>, c: nat)
    requires Initial(s) && Runs(s, es) && c in s.contexts
    ensures var t := After(s, es); c in t.contexts && HasItsOwn(t.slots, c, Look(t.records, c), t.contexts[c])
  {
    ReachableInv(s, es);
    SameContexts(s, es);
    var t := After(s, es);
    assert Local(t.slots, t.records, c, t.contexts[c]);
    if c in t.records {
      var a :| 0 <= a < CONTEXTS && t.slots[a].key == c;
      var d := Reaches(c, a);
    }
  }

  lemma {:induction false} SameContexts(s: State, es: seq<Event>)
    requires Runs(s, es)
    ensures After(s, es).contexts.Keys == s.contexts.Keys
    decreases |es|
  {
    if es != [] {
      SameContexts(Step(s, es[0].c, es[0].op), es[1..]);
    }
  }

  /** Every context that has not aborted can step. */
  lemma NeverStuck(s: State, c: nat)
    requires Inv(s) && c in s.contexts && s.contexts[c].pc != Returned(Aborted)
    ensures Enabled(s, c)
  {
    assert Local(s.slots, s.records, c, s.contexts[c]);
  }

  /** The steps a context has left in its call at most, whatever other contexts do. */
  function StepsLeft(pc: Pc): nat {
    match pc
    case Probing(_, n, _) => 6 + (if n < CONTEXTS then CONTEXTS - n else 0)
    case Claiming(_) => 5
    case Swapping(_, _) => 4
    case Holding(_) => 3
    case Clearing(_) => 2
    case Retiring(_) => 1
    case Recording => 1
    case Missing => 1
    case Returned(_) => 0
  }

  /** A call never waits for another context: each of its steps brings it nearer to its end. */
  lemma OwnStepIsSpent(s: State, c: nat, op: Op)
    requires Enabled(s, c) && !s.contexts[c].pc.Returned?
    ensures StepsLeft(Step(s, c, op).contexts[c].pc) < StepsLeft(s.contexts[c].pc)
  {
  }

  /** What a context may store: its thread pointer, or its record of itself. */
  datatype Field = Tp | Self

  function Part(r: Record, f: Field): int { if f.Tp? then r.tp else r.self }

  function Getting(f: Field): Op { if f.Tp? then GetTp else GetSelf }

  function Setting(f: Field, v: int): Op { if f.Tp? then SetTp(v) else SetSelf(v) }

  /** The call stores the field anew, or withdraws it. */
  predicate Changes(op: Op, f: Field) { (if f.Tp? then op.SetTp? else op.SetSelf?) || op.Release? }

  predicate Stored(s: State, c: nat, f: Field, v: int) { c in s.records && Part(s.records[c], f) == v }

  /** A context whose call leaves the field alone, or has returned. */
  predicate Reads(me: Context, f: Field) { me.pc.Returned? || !Changes(me.op, f) }

  /** A context keeps what it stored through every step of others, and through its own calls that do
      not store it anew. */
  lemma StepKeepsStored(s: State, e: Event, c: nat, f: Field, v: int)
    requires Knows(s, e.c) && Enabled(s, e.c) && c in s.contexts && Stored(s, c, f, v)
    requires Local(s.slots, s.records, c, s.contexts[c])
    requires Reads(s.contexts[c], f) && (e.c == c ==> !Changes(e.op, f))
    ensures var t := Step(s, e.c, e.op); c in t.contexts && Stored(t, c, f, v) && Reads(t.contexts[c], f)
  {
    EveryStepKeeps(s, e.c, e.op);
    if e.c != c { assert Look(Step(s, e.c, e.op).records, c) == Look(s.records, c); }
  }

  lemma {:induction false} RunKeepsStored(s: State, es: seq<Event>, c: nat, f: Field, v: int)
    requires Inv(s) && Runs(s, es) && c in s.contexts && Stored(s, c, f, v) && Reads(s.contexts[c], f)
    requires forall i :: 0 <= i < |es| && es[i].c == c ==> !Changes(es[i].op, f)
    ensures Inv(After(s, es)) && c in After(s, es).contexts && Stored(After(s, es), c, f, v)
    decreases |es|
  {
    if es != [] {
      StepKeepsStored(s, es[0], c, f, v);
      StepKeepsInv(s, es[0].c, es[0].op);
      RunKeepsStored(Step(s, es[0].c, es[0].op), es[1..], c, f, v);
    }
  }

  /** A context that has stored its thread pointer, or its record of itself, reads it back in every later
      call, until it stores another or is released, whatever is inserted, looked up and retired in between. */
  lemma {:induction false} LastStoreIsRead(s: State, es: seq<Event>, c: nat, f: Field, v: int)
    requires Inv(s) && Runs(s, es) && c in s.contexts
    requires s.contexts[c].op == Setting(f, v) && s.contexts[c].pc == Returned(Done)
    requires forall i :: 0 <= i < |es| && es[i].c == c ==> !Changes(es[i].op, f)
    ensures var t := After(s, es);
      && c in t.contexts
      && (t.contexts[c].op == Getting(f) && t.contexts[c].pc.Returned? ==> t.contexts[c].pc.out == Value(v))
  {
    assert Local(s.slots, s.records, c, s.contexts[c]);
    RunKeepsStored(s, es, c, f, v);
    var t := After(s, es);
    assert Local(t.slots, t.records, c, t.contexts[c]);
  }
}
