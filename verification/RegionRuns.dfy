/**
  Mapping and unmapping by any number of contexts at once. What is done under the record's lock is one
  step; a call to the environment is another. The environment promises that what it reserves lies
  apart from all that is reserved.
*/
module RegionRuns {
  import opened Ranges

  /** Where a context is: outside, with a range it has reserved and not recorded, with one it has to
      release, or with a part of a range it found, to be decommitted. */
  datatype Pc = Outside | Reserved(r: Range) | Leaving(r: Range) | Parting(r: Range, lo: int, hi: int)

  datatype State = State(reserved: set<Range>, record: seq<Range>, pcs: map<nat, Pc>)

  datatype Event =
    | Reserve(c: nat, r: Range)                     // the environment gives a range
    | Record(c: nat, i: nat)                        // it is put in its place
    | NoMemory(c: nat)                              // the record cannot grow
    | Unmap(c: nat, a: nat, len: nat, g: nat)       // the record is searched
    | Release(c: nat)                               // the environment takes a range back
    | Decommit(c: nat)                              // the environment takes the backing of a part

  ghost predicate Enabled(s: State, e: Event) {
    && e.c in s.pcs
    && match e
       case Reserve(c, r) => s.pcs[c].Outside? && r.Real() && forall q :: q in s.reserved ==> q.Apart(r)
       case Record(c, i) => s.pcs[c].Reserved? && IsLower(s.record, s.pcs[c].r.base, i)
       case NoMemory(c) => s.pcs[c].Reserved?
       case Unmap(c, a, len, g) => s.pcs[c].Outside? && 0 < g < ADDRESSES && len < ADDRESSES
       case Release(c) => s.pcs[c].Leaving?
       case Decommit(c) => s.pcs[c].Parting?
  }

  /** What `okm_region_unmap` finds, and what becomes of the record. */
  function Unmapped(s: State, c: nat, a: nat, len: nat, g: nat): State
    requires 0 < g
  {
    var i := Linear(s.record, a);
    if i < 0 || a % g != 0 then s
    else
      var r := s.record[i];
      var (lo, hi) := PartOf(r, a, len, g);
      if lo == r.base && hi == r.End() then s.(record := Removed(s.record, i), pcs := s.pcs[c := Leaving(r)])
      else if lo < hi then s.(pcs := s.pcs[c := Parting(r, lo, hi)])
      else s
  }

  ghost function Apply(s: State, e: Event): State
    requires Enabled(s, e)
  {
    match e
    case Reserve(c, r) => s.(reserved := s.reserved + {r}, pcs := s.pcs[c := Reserved(r)])
    case Record(c, i) => s.(record := Inserted(s.record, s.pcs[c].r, i), pcs := s.pcs[c := Outside])
    case NoMemory(c) => s.(pcs := s.pcs[c := Leaving(s.pcs[c].r)])
    case Unmap(c, a, len, g) => Unmapped(s, c, a, len, g)
    case Release(c) => s.(reserved := s.reserved - {s.pcs[c].r}, pcs := s.pcs[c := Outside])
    case Decommit(c) => s.(pcs := s.pcs[c := Outside])
  }

  predicate Carries(pcs: map<nat, Pc>, c: nat, r: Range) {
    c in pcs && (pcs[c] == Reserved(r) || pcs[c] == Leaving(r))
  }

  /** The record is in order; what is reserved lies apart; and each range that is reserved is either
      recorded, or carried by one context, and never both. */
  ghost predicate Inv(s: State) {
    && Ordered(s.record)
    && (forall q :: q in s.reserved ==> q.Real())
    && (forall q, r :: q in s.reserved && r in s.reserved && q != r ==> q.Apart(r))
    && (forall r :: r in All(s.record) ==> r in s.reserved)
    && (forall c, r :: Carries(s.pcs, c, r) ==> r in s.reserved && r !in All(s.record))
    && (forall c, d, r :: Carries(s.pcs, c, r) && Carries(s.pcs, d, r) ==> c == d)
    && (forall r :: r in s.reserved ==> r in All(s.record) || exists c :: Carries(s.pcs, c, r))
    && (forall c :: c in s.pcs && s.pcs[c].Parting? ==>
          s.pcs[c].r.base <= s.pcs[c].lo < s.pcs[c].hi <= s.pcs[c].r.End())
  }

  lemma ReserveKeepsInv(s: State, c: nat, r: Range)
    requires Inv(s) && Enabled(s, Reserve(c, r))
    ensures Inv(Apply(s, Reserve(c, r)))
  {
    var t := Apply(s, Reserve(c, r));
    assert Carries(t.pcs, c, r);
    assert !r.Apart(r);
    forall d, q | d != c ensures Carries(t.pcs, d, q) <==> Carries(s.pcs, d, q) {}
    forall q | q in t.reserved && q !in All(t.record) ensures exists d :: Carries(t.pcs, d, q) {
      if q != r {
        var d :| Carries(s.pcs, d, q);
        assert Carries(t.pcs, d, q);
      }
    }
  }

  lemma RecordKeepsInv(s: State, c: nat, i: nat)
    requires Inv(s) && Enabled(s, Record(c, i))
    ensures Inv(Apply(s, Record(c, i)))
  {
    var t, r := Apply(s, Record(c, i)), s.pcs[c].r;
    assert Carries(s.pcs, c, r);
    InsertKeepsOrder(s.record, r, i);
    forall d, q | d != c ensures Carries(t.pcs, d, q) <==> Carries(s.pcs, d, q) {}
    forall q | q in t.reserved && q !in All(t.record) ensures exists d :: Carries(t.pcs, d, q) {
      var d :| Carries(s.pcs, d, q);
      assert Carries(t.pcs, d, q);
    }
  }

  lemma RemoveKeepsInv(s: State, c: nat, i: nat)
    requires Inv(s) && c in s.pcs && s.pcs[c].Outside? && i < |s.record|
    ensures Inv(s.(record := Removed(s.record, i), pcs := s.pcs[c := Leaving(s.record[i])]))
  {
    var r := s.record[i];
    var t := s.(record := Removed(s.record, i), pcs := s.pcs[c := Leaving(r)]);
    RemoveKeepsOrder(s.record, i);
    assert Carries(t.pcs, c, r);
    forall d, q | d != c ensures Carries(t.pcs, d, q) <==> Carries(s.pcs, d, q) {}
    forall q | q in t.reserved && q !in All(t.record) ensures exists d :: Carries(t.pcs, d, q) {
      if q != r {
        var d :| Carries(s.pcs, d, q);
        assert Carries(t.pcs, d, q);
      }
    }
  }

  lemma ReleaseKeepsInv(s: State, c: nat)
    requires Inv(s) && Enabled(s, Release(c))
    ensures Inv(Apply(s, Release(c)))
  {
    var t, r := Apply(s, Release(c)), s.pcs[c].r;
    assert Carries(s.pcs, c, r);
    forall d, q | d != c ensures Carries(t.pcs, d, q) <==> Carries(s.pcs, d, q) {}
    forall q | q in t.reserved && q !in All(t.record) ensures exists d :: Carries(t.pcs, d, q) {
      var d :| Carries(s.pcs, d, q);
      assert Carries(t.pcs, d, q);
    }
  }

  /** A context that carries nothing, and carries nothing afterwards. */
  lemma IdleKeepsInv(s: State, c: nat, pc: Pc)
    requires Inv(s) && c in s.pcs && !s.pcs[c].Reserved? && !s.pcs[c].Leaving? && !pc.Reserved? && !pc.Leaving?
    requires pc.Parting? ==> pc.r.base <= pc.lo < pc.hi <= pc.r.End()
    ensures Inv(s.(pcs := s.pcs[c := pc]))
  {
    var t := s.(pcs := s.pcs[c := pc]);
    forall d, q ensures Carries(t.pcs, d, q) <==> Carries(s.pcs, d, q) {}
  }

  lemma NoMemoryKeepsInv(s: State, c: nat)
    requires Inv(s) && Enabled(s, NoMemory(c))
    ensures Inv(Apply(s, NoMemory(c)))
  {
    var t := Apply(s, NoMemory(c));
    forall d, q ensures Carries(t.pcs, d, q) <==> Carries(s.pcs, d, q) {}
  }

  lemma StepKeepsInv(s: State, e: Event)
    requires Inv(s) && Enabled(s, e)
    ensures Inv(Apply(s, e))
  {
    match e
    case Reserve(c, r) => ReserveKeepsInv(s, c, r);
    case Record(c, i) => RecordKeepsInv(s, c, i);
    case NoMemory(c) => NoMemoryKeepsInv(s, c);
    case Release(c) => ReleaseKeepsInv(s, c);
    case Decommit(c) => IdleKeepsInv(s, c, Outside);
    case Unmap(c, a, len, g) =>
      var i := Linear(s.record, a);
      if i >= 0 && a % g == 0 {
        var (lo, hi) := PartOf(s.record[i], a, len, g);
        PartLiesInside(s.record[i], a, len, g);
        if lo == s.record[i].base && hi == s.record[i].End() {
          RemoveKeepsInv(s, c, i);
        } else if lo < hi {
          IdleKeepsInv(s, c, Parting(s.record[i], lo, hi));
        }
      }
  }

  /** A call that asks for a whole range, or more, takes it out of the record and then gives it back; one that asks
      for less leaves the record and takes the backing of just those pages. */
  lemma UnmapsWhatIsAsked(s: State, c: nat, i: nat, a: nat, len: nat, g: nat)
    requires Inv(s) && Enabled(s, Unmap(c, a, len, g)) && i < |s.record| && s.record[i].Holds(a) && a % g == 0
    requires IsGrain(g) && 0 < len && NoWrap(a, len, g)
    ensures var r, t, end := s.record[i], Apply(s, Unmap(c, a, len, g)), a + Ceiling(len, g);
      if a == r.base && r.End() <= end then
        && t.pcs[c] == Leaving(r) && Enabled(t, Release(c)) && r in s.reserved
        && Apply(t, Release(c)).reserved == s.reserved - {r}
        && All(Apply(t, Release(c)).record) == All(s.record) - {r}
      else
        t == s.(pcs := s.pcs[c := Parting(r, a, if end < r.End() then end else r.End())])
  {
    SearchFinds(s.record, a, i);
    PartIsAllAsked(s.record[i], a, len, g);
    RemoveKeepsOrder(s.record, i);
  }

  lemma {:induction false} SearchFinds(s: seq<Range>, a: nat, i: nat)
    requires Ordered(s) && i < |s| && s[i].Holds(a)
    ensures Linear(s, a) == i
  {
    OneHolds(s, a, i, Linear(s, a));
  }

  ghost predicate Runs(s: State, es: seq<Event>)
    decreases |es|
  {
    es == [] || (Enabled(s, es[0]) && Runs(Apply(s, es[0]), es[1..]))
  }

  ghost function After(s: State, es: seq<Event>): State
    requires Runs(s, es)
    decreases |es|
  {
    if es == [] then s else After(Apply(s, es[0]), es[1..])
  }

  ghost predicate Initial(s: State) {
    s.reserved == {} && s.record == [] && forall c :: c in s.pcs ==> s.pcs[c] == Outside
  }

  lemma {:induction false} RunKeepsInv(s: State, es: seq<Event>)
    requires Inv(s) && Runs(s, es)
    ensures Inv(After(s, es))
    decreases |es|
  {
    if es != [] {
      StepKeepsInv(s, es[0]);
      RunKeepsInv(Apply(s, es[0]), es[1..]);
    }
  }

  /** In every state that is reached the record is in order, its ranges lie apart and are all reserved,
      and nothing that is reserved is lost: what is not recorded is in the hands of one context. */
  lemma {:induction false} RecordIsReserved(s: State, es: seq<Event>)
    requires Initial(s) && Runs(s, es)
    ensures var t := After(s, es);
      && Ordered(t.record) && All(t.record) <= t.reserved
      && (forall q, r :: q in t.reserved && r in t.reserved && q != r ==> q.Apart(r))
      && (forall r :: r in t.reserved ==> (r in All(t.record) <==> !exists c :: Carries(t.pcs, c, r)))
      && (forall c, d, r :: Carries(t.pcs, c, r) && Carries(t.pcs, d, r) ==> c == d)
  {
    RunKeepsInv(s, es);
  }

  /** The call unmaps the whole of a range: from its first address, to its end. */
  predicate TakesWhole(e: Event, r: Range) {
    e.Unmap? && e.g > 0 && r.Holds(e.a) && e.a % e.g == 0 && PartOf(r, e.a, e.len, e.g) == (r.base, r.End())
  }

  lemma RecordingKeeps(s: State, c: nat, i: nat)
    requires Enabled(s, Record(c, i))
    ensures All(s.record) <= All(Apply(s, Record(c, i)).record)
  {
    InsertedAll(s.record, s.pcs[c].r, i);
  }

  lemma UnmappingKeeps(s: State, c: nat, a: nat, len: nat, g: nat, r: Range)
    requires Ordered(s.record) && r in All(s.record) && 0 < g
    ensures r in All(Unmapped(s, c, a, len, g).record) <==> !TakesWhole(Unmap(c, a, len, g), r)
  {
    var i := Linear(s.record, a);
    var j :| 0 <= j < |s.record| && s.record[j] == r;
    if r.Holds(a) { OneHolds(s.record, a, i, j); }
    if i >= 0 { RemovedAll(s.record, i); }
  }

  /** A recorded range stays so through a step exactly when the step is not such a call. */
  lemma StaysExactly(s: State, e: Event, r: Range)
    requires Inv(s) && Enabled(s, e) && r in All(s.record)
    ensures r in All(Apply(s, e).record) <==> !TakesWhole(e, r)
  {
    match e
    case Record(c, i) => RecordingKeeps(s, c, i);
    case Unmap(c, a, len, g) => UnmappingKeeps(s, c, a, len, g, r);
    case _ =>
  }

  ghost predicate AlwaysRecorded(s: State, es: seq<Event>, r: Range)
    requires Runs(s, es)
    decreases |es|
  {
    r in All(s.record) && (es == [] || AlwaysRecorded(Apply(s, es[0]), es[1..], r))
  }

  /** A recorded range is recorded all through a run exactly when no call of the run unmaps the whole of it. */
  lemma {:induction false} RecordedExactly(s: State, es: seq<Event>, r: Range)
    requires Inv(s) && Runs(s, es) && r in All(s.record)
    ensures AlwaysRecorded(s, es, r) <==> forall i :: 0 <= i < |es| ==> !TakesWhole(es[i], r)
    decreases |es|
  {
    if es != [] {
      StepKeepsInv(s, es[0]);
      StaysExactly(s, es[0], r);
      if !TakesWhole(es[0], r) {
        RecordedExactly(Apply(s, es[0]), es[1..], r);
        assert forall i :: 0 < i < |es| ==> es[i] == es[1..][i - 1];
      }
    }
  }

  /** No call unmaps the whole of this range, and the context itself takes no step. */
  predicate LeftAlone(es: seq<Event>, c: nat, r: Range) {
    forall i :: 0 <= i < |es| ==> es[i].c != c && !TakesWhole(es[i], r)
  }

  /** A part that is about to be decommitted still lies in a recorded range, if no call has unmapped the
      whole of that range since it was found. */
  lemma {:induction false} PartStaysMine(s: State, es: seq<Event>, c: nat, r: Range, lo: int, hi: int)
    requires Inv(s) && Runs(s, es) && c in s.pcs && s.pcs[c] == Parting(r, lo, hi) && r in All(s.record)
    requires LeftAlone(es, c, r)
    ensures var t := After(s, es);
      c in t.pcs && t.pcs[c] == Parting(r, lo, hi) && r in All(t.record) && r in t.reserved &&
          r.base <= lo < hi <= r.End()
    decreases |es|
  {
    if es != [] {
      StepKeepsInv(s, es[0]);
      StaysExactly(s, es[0], r);
      PartStaysMine(Apply(s, es[0]), es[1..], c, r, lo, hi);
    }
  }

  lemma {:induction false} OneRun(s: State, es: seq<Event>, fs: seq<Event>)
    requires Runs(s, es) && Runs(After(s, es), fs)
    ensures Runs(s, es + fs) && After(s, es + fs) == After(After(s, es), fs)
    decreases |es|
  {
    if es == [] {
      assert es + fs == fs;
    } else {
      OneRun(Apply(s, es[0]), es[1..], fs);
      assert (es + fs)[1..] == es[1..] + fs;
    }
  }

  lemma {:induction false} TwoSteps(s: State, e: Event, f: Event)
    requires Enabled(s, e) && Enabled(Apply(s, e), f)
    ensures Runs(s, [e, f]) && After(s, [e, f]) == Apply(Apply(s, e), f)
  {
    var u := Apply(s, e);
    assert [e, f][1..] == [f] && [f][1..] == [];
    assert Runs(u, [f]) && After(u, [f]) == After(Apply(u, f), []);
  }

  /** What is reserved and recorded, and where two contexts are. */
  predicate Lies(s: State, reserved: set<Range>, record: seq<Range>, zero: Pc, one: Pc) {
    s.reserved == reserved && s.record == record && 0 in s.pcs && 1 in s.pcs && s.pcs[0] == zero && s.pcs[1] == one
  }

  const TWO_PAGES: Range := Range(8192, 8192)
  const ONE_PAGE: Range := Range(8192, 4096)
  const FIRST_PART: Pc := Parting(TWO_PAGES, 8192, 12288)

  lemma Maps(s: State) returns (t: State)
    requires Lies(s, {}, [], Outside, Outside)
    ensures Runs(s, [Reserve(0, TWO_PAGES), Record(0, 0)]) && After(s, [Reserve(0, TWO_PAGES), Record(0, 0)]) == t
    ensures Lies(t, {TWO_PAGES}, [TWO_PAGES], Outside, Outside)
  {
    TwoSteps(s, Reserve(0, TWO_PAGES), Record(0, 0));
    t := Apply(Apply(s, Reserve(0, TWO_PAGES)), Record(0, 0));
    assert t.record == [TWO_PAGES];
  }

  lemma BothUnmap(s: State) returns (t: State)
    requires Lies(s, {TWO_PAGES}, [TWO_PAGES], Outside, Outside)
    ensures var es := [Unmap(0, 8192, 4096, 4096), Unmap(1, 8192, 8192, 4096)]; Runs(s, es) && After(s, es) == t
    ensures Lies(t, {TWO_PAGES}, [], FIRST_PART, Leaving(TWO_PAGES))
  {
    var e, f := Unmap(0, 8192, 4096, 4096), Unmap(1, 8192, 8192, 4096);
    assert Linear(s.record, 8192) == 0;
    var u := Apply(s, e);
    assert Lies(u, {TWO_PAGES}, [TWO_PAGES], FIRST_PART, Outside);
    t := Apply(u, f);
    assert t.record == [];
    TwoSteps(s, e, f);
  }

  lemma ReservesAnew(s: State) returns (t: State)
    requires Lies(s, {TWO_PAGES}, [], FIRST_PART, Leaving(TWO_PAGES))
    ensures Runs(s, [Release(1), Reserve(1, ONE_PAGE)]) && After(s, [Release(1), Reserve(1, ONE_PAGE)]) == t
    ensures Lies(t, {ONE_PAGE}, [], FIRST_PART, Reserved(ONE_PAGE))
  {
    var u := Apply(s, Release(1));
    assert u.reserved == {};
    t := Apply(u, Reserve(1, ONE_PAGE));
    TwoSteps(s, Release(1), Reserve(1, ONE_PAGE));
  }

  /** Otherwise it need not: the backing is taken without the lock. Here another context unmaps the whole
      range in between, and what is decommitted is a range that it has reserved anew. */
  lemma PartOfAnother(s: State) returns (es: seq<Event>)
    requires Initial(s) && 0 in s.pcs && 1 in s.pcs
    ensures Runs(s, es) && 0 in After(s, es).pcs && 1 in After(s, es).pcs
    ensures After(s, es).pcs[0] == Parting(Range(8192, 8192), 8192, 12288)
    ensures After(s, es).pcs[1] == Reserved(Range(8192, 4096))
    ensures After(s, es).reserved == {Range(8192, 4096)}
  {
    var e1 := [Reserve(0, TWO_PAGES), Record(0, 0)];
    var s1 := Maps(s);
    var e2 := [Unmap(0, 8192, 4096, 4096), Unmap(1, 8192, 8192, 4096)];
    var s2 := BothUnmap(s1);
    var e3 := [Release(1), Reserve(1, ONE_PAGE)];
    var s3 := ReservesAnew(s2);
    OneRun(s, e1, e2);
    OneRun(s, e1 + e2, e3);
    es := e1 + e2 + e3;
  }
}
