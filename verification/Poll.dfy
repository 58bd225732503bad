/**
  `okm_poll`: a set of descriptors asked in turn, in rounds, until one is ready or the bound is spent.
  Several entries may name the same description.
*/
module Poll {
  import opened Options
  import opened Readiness

  const ROUND_NS: nat := 1000000
  const MAX_FD: nat := 1024

  /** A description, as far as readiness goes: always ready; with a stream that may be read ahead of; with
      something of its own to hold, as sockets that accept or take messages have; without input. */
  datatype Desc =
    | Always
    | Line(x: Input, hangs: bool, writes: bool)
    | Own(pend: bool, writes: bool)
    | Idle(writes: bool)

  /** What the environment answers a bounded wait: nothing in time, an error, something. */
  datatype Reply = Silent | Broken(e: Errno) | Arrives

  datatype Events = Events(input: bool, output: bool, hangup: bool, invalid: bool)

  const NO_EVENTS: Events := Events(false, false, false, false)

  /** An entry of the set: the description its descriptor names. */
  datatype Name = Negative | Bad | Names(d: nat)

  datatype PollFd = PollFd(name: Name, input: bool, output: bool, revents: Events)

  predicate HasRoute(d: Desc) { d.Line? || d.Own? }

  predicate IsReady(d: Desc) { d.Always? || (d.Line? && Ready(d.x)) || (d.Own? && d.pend) }

  function IoOf(x: Input, r: Reply): (io: Io)
    ensures Legit(io, x.coming, 1)
  {
    match r
    case Silent => Again
    case Broken(e) => Failed(e)
    case Arrives => Took(if x.coming == [] then 0 else 1)
  }

  /** `wait_in`, and what it leaves with the description: a positive answer for input, none for silence, a
      negative one for an error. */
  function WaitIn(d: Desc, r: Reply): (Desc, int)
    requires HasRoute(d)
  {
    match d
    case Line(x, hangs, writes) =>
      var (y, n) := Waited(x, IoOf(x, r));
      (Line(y, hangs, writes), n)
    case Own(pend, writes) =>
      if pend then (d, 1)
      else match r
        case Silent => (d, 0)
        case Broken(e) => (d, e as int)
        case Arrives => (Own(true, writes), 1)
  }

  predicate Writes(d: Desc) { !d.Always? && d.writes }

  /** What readiness enquiries may do to a description: nothing that a reader would see, and nothing at
      all once it is ready. */
  predicate Kept(a: Desc, b: Desc) {
    && (IsReady(a) ==> b == a)
    && match a
       case Line(x, h, w) => b.Line? && b.hangs == h && b.writes == w && Left(b.x) == Left(x) &&
           (Honest(x) ==> Honest(b.x))
       case Own(_, w) => b.Own? && b.writes == w
       case _ => b == a
  }

  /** What an entry's answer promises. */
  predicate Truthful(f: PollFd, descs: seq<Desc>) {
    match f.name
    case Negative => f.revents == NO_EVENTS
    case Bad => f.revents == NO_EVENTS.(invalid := true)
    case Names(k) =>
      && k < |descs|
      && !f.revents.invalid
      && (f.revents.output <==> f.output && (descs[k].Always? || Writes(descs[k])))
      && (f.revents.input ==> f.input && IsReady(descs[k]))
      && (f.revents.hangup <==> f.revents.input && descs[k].Line? && descs[k].hangs && descs[k].x.ended)
  }

  predicate Known(f: PollFd, n: nat) { f.name.Names? ==> f.name.d < n }

  predicate Asks(f: PollFd, g: PollFd) { f.name == g.name && f.input == g.input && f.output == g.output }

  /** What an entry asks to read from is something that is waited for. */
  predicate Waits(f: PollFd, descs: seq<Desc>) {
    f.input && f.name.Names? && f.name.d < |descs| && HasRoute(descs[f.name.d])
  }

  function CountReady(fds: seq<PollFd>): nat {
    if fds == [] then 0
    else CountReady(fds[..|fds| - 1]) + if fds[|fds| - 1].revents != NO_EVENTS then 1 else 0
  }

  // --- one entry ---

  lemma WaitKeeps(d: Desc, r: Reply)
    requires HasRoute(d)
    ensures Kept(d, WaitIn(d, r).0) && (WaitIn(d, r).1 > 0 <==> IsReady(WaitIn(d, r).0))
    ensures IsReady(WaitIn(d, r).0) <==> IsReady(d) || r.Arrives?
    ensures WaitIn(d, r).1 < 0 <==> !IsReady(d) && r.Broken?
    ensures WaitIn(d, r).1 < 0 ==> WaitIn(d, r).1 == r.e
  {
  }

  /** What asking one entry does to the descriptions and answers. */
  ghost predicate Enquired(g: PollFd, before: seq<Desc>, now: seq<Desc>, r: Reply, error: int) {
    if !g.name.Names? then now == before && error == 0 && !g.revents.input
    else
      var k := g.name.d;
      && k < |before| == |now| && now == before[k := now[k]] && Kept(before[k], now[k])
      && (IsReady(now[k]) <==> IsReady(before[k]) || (Waits(g, before) && r.Arrives?))
      && (g.revents.input <==> g.input && IsReady(now[k]))
      && error == if Waits(g, before) && !IsReady(before[k]) && r.Broken? then r.e else 0
  }

  /** One entry of the set. */
  method PollOne(f: PollFd, descs: array<Desc>, r: Reply) returns (g: PollFd, error: int, waited: bool)
    requires Known(f, descs.Length)
    modifies descs
    ensures Truthful(g, descs[..]) && Asks(f, g)
    ensures Enquired(g, old(descs[..]), descs[..], r, error)
    ensures waited <==> Waits(f, old(descs[..]))
  {
    g, error, waited := f.(revents := NO_EVENTS), 0, false;
    match f.name
    case Negative =>
    case Bad => g := g.(revents := NO_EVENTS.(invalid := true));
    case Names(k) =>
      var d := descs[k];
      if d.Always? {
        g := g.(revents := Events(f.input, f.output, false, false));
        return;
      }
      var input, hangup := false, false;
      if f.input && HasRoute(d) {
        waited := true;
        WaitKeeps(d, r);
        var (e, n) := WaitIn(d, r);
        descs[k] := e;
        if n < 0 {
          error := n;
        } else if n > 0 {
          input := true;
          hangup := e.Line? && e.x.ended && e.hangs;
        }
      }
      g := g.(revents := Events(input, f.output && Writes(d), hangup, false));
  }

  /** An answer stays true while other entries are asked. */
  lemma StaysTruthful(f: PollFd, a: seq<Desc>, k: nat, d: Desc)
    requires Truthful(f, a) && k < |a| && Kept(a[k], d)
    ensures Truthful(f, a[k := d])
  {
  }

  predicate AllKept(a: seq<Desc>, b: seq<Desc>) {
    |a| == |b| && forall k :: 0 <= k < |a| ==> Kept(a[k], b[k])
  }

  lemma KeptTwice(a: seq<Desc>, b: seq<Desc>, c: seq<Desc>)
    requires AllKept(a, b) && AllKept(b, c)
    ensures AllKept(a, c)
  {
    forall k | 0 <= k < |a| ensures Kept(a[k], c[k]) {
      assert Kept(a[k], b[k]) && Kept(b[k], c[k]);
    }
  }

  lemma KeptOne(a: seq<Desc>, b: seq<Desc>, k: nat, d: Desc)
    requires AllKept(a, b) && k < |b| && Kept(b[k], d)
    ensures AllKept(a, b[k := d])
  {
    forall j | 0 <= j < |b| ensures Kept(b[j], b[k := d][j]) {}
    KeptTwice(a, b, b[k := d]);
  }

  lemma KeptOn(was: seq<Desc>, before: seq<Desc>, g: PollFd, now: seq<Desc>, r: Reply, error: int)
    requires AllKept(was, before) && Enquired(g, before, now, r, error)
    ensures AllKept(was, now)
  {
    if g.name.Names? { KeptOne(was, before, g.name.d, now[g.name.d]); }
  }

  // --- one pass ---

  /** The first entries have been answered, truthfully. */
  ghost predicate Answered(fds: seq<PollFd>, asked: seq<PollFd>, descs: seq<Desc>, i: nat) {
    && i <= |fds| == |asked|
    && (forall j :: 0 <= j < i ==> Truthful(fds[j], descs))
    && forall j :: 0 <= j < |fds| ==> Asks(asked[j], fds[j])
  }

  lemma OneMoreAnswered(fds: seq<PollFd>, asked: seq<PollFd>, descs: seq<Desc>, i: nat, g: PollFd, now: seq<Desc>,
                        r: Reply, error: int)
    requires Answered(fds, asked, descs, i) && i < |fds| && Asks(fds[i], g) && Truthful(g, now)
    requires Enquired(g, descs, now, r, error)
    ensures Answered(fds[i := g], asked, now, i + 1)
    ensures CountReady(fds[i := g][..i + 1]) == CountReady(fds[..i]) + if g.revents != NO_EVENTS then 1 else 0
  {
    var all := fds[i := g];
    forall j | 0 <= j < i + 1 ensures Truthful(all[j], now) {
      if j < i && now != descs {
        StaysTruthful(fds[j], descs, g.name.d, now[g.name.d]);
      }
    }
    assert all[..i + 1][..i] == fds[..i];
  }

  /** Something arrives at a description when an entry asks for it. */
  ghost predicate Brings(asked: seq<PollFd>, was: seq<Desc>, env: nat -> Reply, d: nat, h: nat) {
    h < |asked| && Waits(asked[h], was) && asked[h].name.d == d && env(h).Arrives?
  }

  /** A description has input once so many entries have been asked: it had before, or it came. */
  ghost predicate ReadyBy(asked: seq<PollFd>, was: seq<Desc>, env: nat -> Reply, d: nat, i: nat) {
    d < |was| && (IsReady(was[d]) || exists h :: 0 <= h < i && Brings(asked, was, env, d, h))
  }

  /** An entry is asked for something that has none yet, and the environment answers with an error. */
  ghost predicate Fails(asked: seq<PollFd>, was: seq<Desc>, env: nat -> Reply, h: nat) {
    h < |asked| && Waits(asked[h], was) && !ReadyBy(asked, was, env, asked[h].name.d, h) && env(h).Broken?
  }

  /** The error is that of the first such entry, and zero where there is none. */
  ghost predicate FirstError(asked: seq<PollFd>, was: seq<Desc>, env: nat -> Reply, i: nat, error: int) {
    && (error == 0 ==> forall h :: 0 <= h < i ==> !Fails(asked, was, env, h))
    && (error != 0 ==> exists h :: 0 <= h < i && FailsFirst(asked, was, env, h, error))
  }

  ghost predicate FailsFirst(asked: seq<PollFd>, was: seq<Desc>, env: nat -> Reply, h: nat, error: int) {
    Fails(asked, was, env, h) && env(h).e == error && forall k :: 0 <= k < h ==> !Fails(asked, was, env, k)
  }

  /** An entry is told of input exactly when it asked and what it names has input by then. */
  ghost predicate ToldOfInput(g: PollFd, asked: seq<PollFd>, was: seq<Desc>, env: nat -> Reply, j: nat) {
    g.revents.input <==> g.input && g.name.Names? && ReadyBy(asked, was, env, g.name.d, j + 1)
  }

  ghost predicate AllReadyBy(asked: seq<PollFd>, was: seq<Desc>, env: nat -> Reply, i: nat, descs: seq<Desc>) {
    |descs| == |was| && forall d :: 0 <= d < |was| ==> (IsReady(descs[d]) <==> ReadyBy(asked, was, env, d, i))
  }

  /** A pass has come to an entry. */
  ghost predicate Passed(fds: seq<PollFd>, asked: seq<PollFd>, was: seq<Desc>, descs: seq<Desc>, env: nat -> Reply,
                         i: nat, error: int)
  {
    && Answered(fds, asked, descs, i) && AllKept(was, descs)
    && AllReadyBy(asked, was, env, i, descs)
    && (forall j :: 0 <= j < i ==> ToldOfInput(fds[j], asked, was, env, j))
    && FirstError(asked, was, env, i, error)
  }

  /** What an entry asks to read from has a route after an enquiry exactly when it had one. */
  lemma SameWaits(f: PollFd, g: PollFd, a: seq<Desc>, b: seq<Desc>)
    requires AllKept(a, b) && Asks(f, g)
    ensures Waits(f, a) <==> Waits(g, b)
  {
    if f.name.Names? && f.name.d < |a| { assert Kept(a[f.name.d], b[f.name.d]); }
  }

  lemma ReadyByOn(asked: seq<PollFd>, was: seq<Desc>, env: nat -> Reply, d: nat, i: nat)
    requires d < |was|
    ensures ReadyBy(asked, was, env, d, i + 1) <==> ReadyBy(asked, was, env, d, i) || Brings(asked, was, env, d, i)
  {
  }

  lemma ReadyOn(asked: seq<PollFd>, was: seq<Desc>, env: nat -> Reply, before: seq<Desc>, i: nat, g: PollFd,
                now: seq<Desc>, error: int)
    requires i < |asked| && AllKept(was, before) && Asks(asked[i], g) && AllReadyBy(asked, was, env, i, before)
    requires Enquired(g, before, now, env(i), error) && Known(g, |was|)
    ensures AllReadyBy(asked, was, env, i + 1, now) && ToldOfInput(g, asked, was, env, i)
  {
    SameWaits(asked[i], g, was, before);
    forall d | 0 <= d < |was| ensures IsReady(now[d]) <==> ReadyBy(asked, was, env, d, i + 1) {
      ReadyByOn(asked, was, env, d, i);
      assert IsReady(before[d]) <==> ReadyBy(asked, was, env, d, i);
    }
  }

  lemma ErrorOn(asked: seq<PollFd>, was: seq<Desc>, env: nat -> Reply, before: seq<Desc>, i: nat, g: PollFd,
                now: seq<Desc>, error: int, e: int)
    requires i < |asked| && AllKept(was, before) && Asks(asked[i], g) && AllReadyBy(asked, was, env, i, before)
    requires Enquired(g, before, now, env(i), e) && FirstError(asked, was, env, i, error)
    ensures FirstError(asked, was, env, i + 1, if error == 0 then e else error)
  {
    SameWaits(asked[i], g, was, before);
    if error == 0 {
      assert e != 0 <==> Fails(asked, was, env, i);
      if e != 0 { assert FailsFirst(asked, was, env, i, e); }
    } else {
      var h :| 0 <= h < i && FailsFirst(asked, was, env, h, error);
    }
  }

  lemma PassOn(all: seq<PollFd>, asked: seq<PollFd>, was: seq<Desc>, before: seq<Desc>, env: nat -> Reply, i: nat,
               error: int, g: PollFd, now: seq<Desc>, e: int)
    requires Passed(all, asked, was, before, env, i, error) && i < |all|
    requires Asks(all[i], g) && Truthful(g, now) && Enquired(g, before, now, env(i), e)
    ensures Passed(all[i := g], asked, was, now, env, i + 1, if error == 0 then e else error)
  {
    assert Asks(asked[i], all[i]);
    OneMoreAnswered(all, asked, before, i, g, now, env(i), e);
    KeptOn(was, before, g, now, env(i), e);
    ReadyOn(asked, was, env, before, i, g, now, e);
    ErrorOn(asked, was, env, before, i, g, now, error, e);
  }

  /** How many of the entries asked so far are ready, and whether one of them is waited for. */
  ghost predicate Tallied(fds: seq<PollFd>, asked: seq<PollFd>, was: seq<Desc>, i: nat, ready: nat, waited: bool) {
    && i <= |fds| == |asked| && ready == CountReady(fds[..i])
    && (waited <==> exists j :: 0 <= j < i && Waits(asked[j], was))
  }

  lemma TallyOn(all: seq<PollFd>, asked: seq<PollFd>, was: seq<Desc>, before: seq<Desc>, i: nat, ready: nat,
                waited: bool, g: PollFd, w: bool)
    requires Tallied(all, asked, was, i, ready, waited) && i < |all| && Asks(asked[i], all[i])
    requires AllKept(was, before) && (w <==> Waits(all[i], before))
    ensures Tallied(all[i := g], asked, was, i + 1, if g.revents != NO_EVENTS then ready + 1 else ready, waited || w)
  {
    SameWaits(asked[i], all[i], was, before);
    assert all[i := g][..i + 1][..i] == all[..i];
  }

  /** One pass over the set. */
  method Pass(fds: array<PollFd>, descs: array<Desc>, env: nat -> Reply)
    returns (ready: nat, error: int, waited: bool)
    requires forall j :: 0 <= j < fds.Length ==> Known(fds[j], descs.Length)
    modifies fds, descs
    ensures Passed(fds[..], old(fds[..]), old(descs[..]), descs[..], env, fds.Length, error)
    ensures Tallied(fds[..], old(fds[..]), old(descs[..]), fds.Length, ready, waited)
  {
    ready, error, waited := 0, 0, false;
    ghost var asked, was := fds[..], descs[..];
    for i := 0 to fds.Length
      invariant Passed(fds[..], asked, was, descs[..], env, i, error)
      invariant Tallied(fds[..], asked, was, i, ready, waited)
      invariant forall j :: 0 <= j < fds.Length ==> Known(fds[j], descs.Length)
    {
      ghost var all, before := fds[..], descs[..];
      var g, e, w := PollOne(fds[i], descs, env(i));
      fds[i] := g;
      PassOn(all, asked, was, before, env, i, error, g, descs[..], e);
      TallyOn(all, asked, was, before, i, ready, waited, g, w);
      if error == 0 { error := e; }
      waited := waited || w;
      if g.revents != NO_EVENTS { ready := ready + 1; }
      assert fds[..] == all[i := g];
    }
  }

  // --- a whole call ---

  /** An entry that is ready at once, whatever the environment answers. */
  predicate AtOnce(f: PollFd, descs: seq<Desc>) {
    match f.name
    case Negative => false
    case Bad => true
    case Names(k) =>
      && k < |descs|
      && ((f.output && (descs[k].Always? || Writes(descs[k]))) || (f.input && IsReady(descs[k])))
  }

  /** An entry that a round finds ready. */
  predicate Found(f: PollFd, descs: seq<Desc>, r: Reply) {
    AtOnce(f, descs) || (Waits(f, descs) && r.Arrives?)
  }

  predicate Refused(f: PollFd, descs: seq<Desc>, r: Reply) { Waits(f, descs) && r.Broken? }

  /** What a round comes to: some entry is ready, or the first error there was, or neither. */
  ghost predicate SomeReady(asked: seq<PollFd>, was: seq<Desc>, env: nat -> Reply) {
    exists j :: 0 <= j < |asked| && Found(asked[j], was, env(j))
  }

  ghost predicate NoneRefused(asked: seq<PollFd>, was: seq<Desc>, env: nat -> Reply, i: nat) {
    i <= |asked| && forall j :: 0 <= j < i ==> !Refused(asked[j], was, env(j))
  }

  ghost predicate RefusedFirst(asked: seq<PollFd>, was: seq<Desc>, env: nat -> Reply, h: nat, e: int) {
    h < |asked| && Refused(asked[h], was, env(h)) && env(h).e == e && NoneRefused(asked, was, env, h)
  }

  ghost predicate ComesTo(asked: seq<PollFd>, was: seq<Desc>, env: nat -> Reply, ready: nat, error: int) {
    && (ready > 0 <==> SomeReady(asked, was, env))
    && (ready == 0 && error == 0 ==> NoneRefused(asked, was, env, |asked|))
    && (ready == 0 && error != 0 ==> exists h :: 0 <= h < |asked| && RefusedFirst(asked, was, env, h, error))
  }

  lemma {:induction false} CountsEvents(fds: seq<PollFd>)
    ensures CountReady(fds) > 0 <==> exists j :: 0 <= j < |fds| && fds[j].revents != NO_EVENTS
  {
    if fds != [] {
      var front := fds[..|fds| - 1];
      CountsEvents(front);
      assert forall j :: 0 <= j < |front| ==> front[j] == fds[j];
    }
  }

  /** An entry has an event exactly when the round found it ready or what it names has been made ready before. */
  lemma EventsTell(fds: seq<PollFd>, asked: seq<PollFd>, was: seq<Desc>, descs: seq<Desc>, env: nat -> Reply,
                   error: int, j: nat)
    requires Passed(fds, asked, was, descs, env, |fds|, error) && j < |fds|
    ensures Found(asked[j], was, env(j)) ==> fds[j].revents != NO_EVENTS
    ensures fds[j].revents != NO_EVENTS ==> SomeReady(asked, was, env)
  {
    var f, g := asked[j], fds[j];
    assert Asks(f, g) && Truthful(g, descs) && ToldOfInput(g, asked, was, env, j);
    if g.name.Names? {
      var d := g.name.d;
      assert Kept(was[d], descs[d]);
      if Waits(f, was) && env(j).Arrives? { assert Brings(asked, was, env, d, j); }
      if g.revents.input && !IsReady(was[d]) {
        var h :| 0 <= h < j + 1 && Brings(asked, was, env, d, h);
        assert Found(asked[h], was, env(h));
      } else if g.revents != NO_EVENTS {
        assert Found(f, was, env(j));
      }
    } else if g.revents != NO_EVENTS {
      assert Found(f, was, env(j));
    }
  }

  lemma {:induction false} RoundComesTo(fds: seq<PollFd>, asked: seq<PollFd>, was: seq<Desc>, descs: seq<Desc>,
                                        env: nat -> Reply, error: int)
    requires Passed(fds, asked, was, descs, env, |fds|, error)
    ensures ComesTo(asked, was, env, CountReady(fds), error)
  {
    CountsEvents(fds);
    forall j | 0 <= j < |fds|
      ensures Found(asked[j], was, env(j)) ==> fds[j].revents != NO_EVENTS
      ensures fds[j].revents != NO_EVENTS ==> SomeReady(asked, was, env)
    {
      EventsTell(fds, asked, was, descs, env, error, j);
    }
    if CountReady(fds) == 0 {
      forall h | 0 <= h < |asked| ensures Fails(asked, was, env, h) <==> Refused(asked[h], was, env(h)) {
        RefusalFails(asked, was, env, h);
      }
      if error != 0 {
        var h :| 0 <= h < |asked| && FailsFirst(asked, was, env, h, error);
        assert RefusedFirst(asked, was, env, h, error);
      }
    }
  }

  lemma NotReadied(asked: seq<PollFd>, was: seq<Desc>, env: nat -> Reply, d: nat, i: nat)
    requires i <= |asked| && d < |was| && !SomeReady(asked, was, env)
    ensures ReadyBy(asked, was, env, d, i) <==> IsReady(was[d])
  {
    forall h | 0 <= h < i ensures !Brings(asked, was, env, d, h) {
      assert !Found(asked[h], was, env(h));
    }
  }

  /** Where nothing is ready and nothing arrives, every refusal is of something that has no input. */
  lemma RefusalFails(asked: seq<PollFd>, was: seq<Desc>, env: nat -> Reply, h: nat)
    requires h < |asked| && !SomeReady(asked, was, env)
    ensures Fails(asked, was, env, h) <==> Refused(asked[h], was, env(h))
  {
    if Refused(asked[h], was, env(h)) {
      assert !Found(asked[h], was, env(h));
      NotReadied(asked, was, env, asked[h].name.d, h);
    }
  }

  predicate SameReady(a: seq<Desc>, b: seq<Desc>) {
    |a| == |b| && forall d :: 0 <= d < |a| ==> (IsReady(a[d]) <==> IsReady(b[d]))
  }

  /** A round that finds nothing ready makes nothing ready. */
  lemma NothingReadied(asked: seq<PollFd>, was: seq<Desc>, env: nat -> Reply, descs: seq<Desc>)
    requires AllReadyBy(asked, was, env, |asked|, descs) && !SomeReady(asked, was, env)
    ensures SameReady(was, descs)
  {
    forall d | 0 <= d < |was| ensures IsReady(was[d]) <==> IsReady(descs[d]) {
      assert IsReady(descs[d]) <==> ReadyBy(asked, was, env, d, |asked|);
      NotReadied(asked, was, env, d, |asked|);
    }
  }

  lemma SameFound(f: PollFd, g: PollFd, a: seq<Desc>, b: seq<Desc>, r: Reply)
    requires AllKept(a, b) && SameReady(a, b) && Asks(f, g)
    ensures Found(f, a, r) <==> Found(g, b, r)
    ensures Refused(f, a, r) <==> Refused(g, b, r)
  {
    SameWaits(f, g, a, b);
    if f.name.Names? && f.name.d < |a| { assert Kept(a[f.name.d], b[f.name.d]); }
  }

  ghost predicate AllAsk(asked: seq<PollFd>, here: seq<PollFd>) {
    |asked| == |here| && forall j :: 0 <= j < |asked| ==> Asks(asked[j], here[j])
  }

  /** What a later round comes to is said of the descriptions as the call found them. */
  lemma ComesToSame(asked: seq<PollFd>, here: seq<PollFd>, was: seq<Desc>, before: seq<Desc>, env: nat -> Reply,
                    ready: nat, error: int)
    requires AllAsk(asked, here) && AllKept(was, before) && SameReady(was, before)
    requires ComesTo(here, before, env, ready, error)
    ensures ComesTo(asked, was, env, ready, error)
  {
    forall j | 0 <= j < |asked|
      ensures Found(asked[j], was, env(j)) <==> Found(here[j], before, env(j))
      ensures Refused(asked[j], was, env(j)) <==> Refused(here[j], before, env(j))
    {
      SameFound(asked[j], here[j], was, before, env(j));
    }
    if ready == 0 && error != 0 {
      var h :| 0 <= h < |here| && RefusedFirst(here, before, env, h, error);
      assert RefusedFirst(asked, was, env, h, error);
    }
  }

  lemma SomeWaits(asked: seq<PollFd>, here: seq<PollFd>, was: seq<Desc>, before: seq<Desc>)
    requires AllAsk(asked, here) && AllKept(was, before)
    ensures (exists j :: 0 <= j < |asked| && Waits(asked[j], was)) <==>
            exists j :: 0 <= j < |here| && Waits(here[j], before)
  {
    forall j | 0 <= j < |asked| ensures Waits(asked[j], was) <==> Waits(here[j], before) {
      SameWaits(asked[j], here[j], was, before);
    }
  }

  lemma SameReadyOn(a: seq<Desc>, b: seq<Desc>, c: seq<Desc>)
    requires SameReady(a, b) && SameReady(b, c)
    ensures SameReady(a, c)
  {
  }

  lemma AskedTwice(asked: seq<PollFd>, here: seq<PollFd>, fds: seq<PollFd>, descs: seq<Desc>)
    requires Answered(fds, here, descs, |fds|) && AllAsk(asked, here)
    ensures Answered(fds, asked, descs, |fds|) && AllAsk(asked, fds)
  {
    forall j | 0 <= j < |fds| ensures Asks(asked[j], fds[j]) {
      assert Asks(here[j], fds[j]);
    }
  }

  /** What a round of a call that began with `asked` and `was` leaves and answers. */
  ghost predicate Rounded(fds: seq<PollFd>, asked: seq<PollFd>, was: seq<Desc>, descs: seq<Desc>, env: nat -> Reply,
                          ready: nat, error: int, waited: bool)
  {
    && Answered(fds, asked, descs, |fds|) && AllAsk(asked, fds) && AllKept(was, descs) && ready == CountReady(fds)
    && ComesTo(asked, was, env, ready, error)
    && (ready == 0 ==> SameReady(was, descs))
    && (waited <==> exists j :: 0 <= j < |asked| && Waits(asked[j], was))
  }

  lemma RoundOn(fds: seq<PollFd>, asked: seq<PollFd>, here: seq<PollFd>, was: seq<Desc>, before: seq<Desc>,
                descs: seq<Desc>, env: nat -> Reply, ready: nat, error: int, waited: bool)
    requires AllAsk(asked, here) && AllKept(was, before) && SameReady(was, before)
    requires Passed(fds, here, before, descs, env, |fds|, error) && Tallied(fds, here, before, |fds|, ready, waited)
    ensures Rounded(fds, asked, was, descs, env, ready, error, waited)
  {
    assert fds[..|fds|] == fds;
    RoundComesTo(fds, here, before, descs, env, error);
    ComesToSame(asked, here, was, before, env, ready, error);
    KeptTwice(was, before, descs);
    AskedTwice(asked, here, fds, descs);
    SomeWaits(asked, here, was, before);
    if ready == 0 {
      NothingReadied(here, before, env, descs);
      SameReadyOn(was, before, descs);
    }
  }

  /** One round of a call that began with `asked` and `was`. */
  method Round(fds: array<PollFd>, descs: array<Desc>, env: nat -> Reply, ghost asked: seq<PollFd>,
               ghost was: seq<Desc>)
    returns (ready: nat, error: int, waited: bool)
    requires AllAsk(asked, fds[..]) && AllKept(was, descs[..]) && SameReady(was, descs[..])
    requires forall j :: 0 <= j < |asked| ==> Known(asked[j], |was|)
    modifies fds, descs
    ensures Rounded(fds[..], asked, was, descs[..], env, ready, error, waited)
  {
    ghost var here, before := fds[..], descs[..];
    forall j | 0 <= j < fds.Length ensures Known(fds[j], descs.Length) {
      assert Asks(asked[j], here[j]) && Known(asked[j], |was|);
    }
    ready, error, waited := Pass(fds, descs, env);
    RoundOn(fds[..], asked, here, was, before, descs[..], env, ready, error, waited);
  }

  /** `Waiting` is no answer: the call, whose bound is without end, has not returned yet. */
  datatype Answer = Invalid | Failure(e: int) | Count(n: nat) | Waiting

  ghost predicate Uneventful(asked: seq<PollFd>, was: seq<Desc>, env: nat -> Reply) {
    !SomeReady(asked, was, env) && NoneRefused(asked, was, env, |asked|)
  }

  /** A set of one that is waited for: the whole bound is given to its one wait. */
  predicate Handed(asked: seq<PollFd>, was: seq<Desc>) { |asked| == 1 && Waits(asked[0], was) }

  /** What a call answers, and when: the first round in which something is ready or refused decides, unless the
      bound is spent before it, by sleeping between rounds or in the one wait that was given all of it. */
  ghost predicate Concludes(asked: seq<PollFd>, was: seq<Desc>, env: nat -> nat -> Reply, bound: Option<nat>,
                            rounds: nat, r: Answer, slept: nat, last: nat)
  {
    && (forall q :: 0 <= q < last ==> Uneventful(asked, was, env(q)))
    && (r.Count? && r.n > 0 <==> SomeReady(asked, was, env(last)))
    && (r.Failure? ==> !SomeReady(asked, was, env(last)))
    && (r.Failure? ==> exists h :: 0 <= h < |asked| && RefusedFirst(asked, was, env(last), h, r.e))
    && (r == Count(0) || r == Waiting ==> Uneventful(asked, was, env(last)))
    && (r == Count(0) ==> bound.Some? && (Handed(asked, was) || bound.value <= last * ROUND_NS))
    && (r == Waiting ==> bound.None? && last == rounds)
    && (bound.Some? && last > 0 ==> !Handed(asked, was) && (last - 1) * ROUND_NS < bound.value)
    && (bound.None? ==> last <= rounds)
    && slept == (if Handed(asked, was) then 0 else last * ROUND_NS)
    && r != Invalid
  }

  /** A call has come to a round, with so much of its bound left. */
  ghost predicate Reached(asked: seq<PollFd>, was: seq<Desc>, env: nat -> nat -> Reply, bound: Option<nat>,
                          rounds: nat, round: nat, left: nat, slept: nat)
  {
    && (forall q :: 0 <= q < round ==> Uneventful(asked, was, env(q)))
    && (bound.Some? ==>
          && left == (if bound.value <= round * ROUND_NS then 0 else bound.value - round * ROUND_NS)
          && (round > 0 ==> !Handed(asked, was) && (round - 1) * ROUND_NS < bound.value))
    && (bound.None? ==> round <= rounds)
    && slept == if Handed(asked, was) then 0 else round * ROUND_NS
  }

  /** A round that decides. */
  lemma Decided(asked: seq<PollFd>, was: seq<Desc>, env: nat -> nat -> Reply, bound: Option<nat>, rounds: nat,
                round: nat, left: nat, slept: nat, ready: nat, error: int, r: Answer)
    requires Reached(asked, was, env, bound, rounds, round, left, slept)
    requires ComesTo(asked, was, env(round), ready, error)
    requires if ready > 0 then r == Count(ready)
             else if error != 0 then r == Failure(error)
             else if bound.Some? then r == Count(0) && (left == 0 || Handed(asked, was))
             else r == Waiting && round == rounds
    ensures Concludes(asked, was, env, bound, rounds, r, slept, round)
  {
  }

  /** A round that does not. */
  lemma NextRound(asked: seq<PollFd>, was: seq<Desc>, env: nat -> nat -> Reply, bound: Option<nat>, rounds: nat,
                  round: nat, left: nat, slept: nat)
    requires Reached(asked, was, env, bound, rounds, round, left, slept)
    requires ComesTo(asked, was, env(round), 0, 0)
    requires if bound.Some? then left > 0 && !Handed(asked, was) else round < rounds
    ensures Reached(asked, was, env, bound, rounds, round + 1, if left <= ROUND_NS then 0 else left - ROUND_NS,
                    if Handed(asked, was) then slept else slept + ROUND_NS)
  {
  }

  /** After a round the call has its answer or comes to the next one. */
  lemma Turn(fds: seq<PollFd>, asked: seq<PollFd>, was: seq<Desc>, descs: seq<Desc>, env: nat -> nat -> Reply,
             bound: Option<nat>, rounds: nat, round: nat, left: nat, slept: nat, ready: nat, error: int, waited: bool)
    requires Reached(asked, was, env, bound, rounds, round, left, slept)
    requires Rounded(fds, asked, was, descs, env(round), ready, error, waited)
    ensures waited && |asked| == 1 <==> Handed(asked, was)
    ensures ready > 0 ==> Concludes(asked, was, env, bound, rounds, Count(ready), slept, round)
    ensures ready == 0 && error != 0 ==> Concludes(asked, was, env, bound, rounds, Failure(error), slept, round)
    ensures ready == 0 && error == 0 && bound.Some? && (left == 0 || Handed(asked, was)) ==>
      Concludes(asked, was, env, bound, rounds, Count(0), slept, round)
    ensures ready == 0 && error == 0 && bound.None? && round == rounds ==>
      Concludes(asked, was, env, bound, rounds, Waiting, slept, round)
    ensures ready == 0 && error == 0 && (if bound.Some? then left > 0 && !Handed(asked, was) else round < rounds) ==>
      Reached(asked, was, env, bound, rounds, round + 1, if left <= ROUND_NS then 0 else left - ROUND_NS,
              if Handed(asked, was) then slept else slept + ROUND_NS)
  {
    if ready > 0 {
      Decided(asked, was, env, bound, rounds, round, left, slept, ready, error, Count(ready));
    } else if error != 0 {
      Decided(asked, was, env, bound, rounds, round, left, slept, ready, error, Failure(error));
    } else if bound.Some? && (left == 0 || Handed(asked, was)) {
      Decided(asked, was, env, bound, rounds, round, left, slept, ready, error, Count(0));
    } else if bound.None? && round == rounds {
      Decided(asked, was, env, bound, rounds, round, left, slept, ready, error, Waiting);
    } else {
      NextRound(asked, was, env, bound, rounds, round, left, slept);
    }
  }

  /** `okm_poll` with a bound of so many nanoseconds or, for a negative timeout, none, in which case the
      call is followed for `rounds` rounds. `slept` is what it waited between rounds, `last` the round that
      decided. */
  method Poll(fds: array<PollFd>, descs: array<Desc>, bound: Option<nat>, env: nat -> nat -> Reply, rounds: nat)
    returns (r: Answer, slept: nat, ghost last: nat)
    requires forall j :: 0 <= j < fds.Length ==> Known(fds[j], descs.Length)
    modifies fds, descs
    ensures r.Invalid? <==> fds.Length > MAX_FD
    ensures r.Invalid? ==> fds[..] == old(fds[..]) && descs[..] == old(descs[..])
    ensures !r.Invalid? ==> Answered(fds[..], old(fds[..]), descs[..], fds.Length)
    ensures !r.Invalid? ==> Concludes(old(fds[..]), old(descs[..]), env, bound, rounds, r, slept, last)
    ensures AllKept(old(descs[..]), descs[..])
    ensures r.Count? ==> r.n == CountReady(fds[..])
    ensures r.Failure? || r.Waiting? ==> CountReady(fds[..]) == 0
  {
    slept, last := 0, 0;
    ghost var asked, was := fds[..], descs[..];
    if fds.Length > MAX_FD { return Invalid, 0, 0; }
    var forever := bound.None?;
    var left: nat, round: nat := if forever then 0 else bound.value, 0;
    var single := fds.Length == 1 && fds[0].name != Negative;
    while true
      invariant AllAsk(asked, fds[..]) && AllKept(was, descs[..]) && SameReady(was, descs[..])
      invariant Reached(asked, was, env, bound, rounds, round, left, slept)
      decreases if forever then rounds - round else left
    {
      var ready, error, waited := Round(fds, descs, env(round), asked, was);
      last := round;
      Turn(fds[..], asked, was, descs[..], env, bound, rounds, round, left, slept, ready, error, waited);
      if ready > 0 { return Count(ready), slept, last; }
      if error != 0 { return Failure(error), slept, last; }
      if !forever && left == 0 { return Count(0), slept, last; }
      if forever && round == rounds { return Waiting, slept, last; }
      round := round + 1;
      if single && waited {
        if !forever { return Count(0), slept, last; }
        continue;
      }
      if !forever { left := if left <= ROUND_NS then 0 else left - ROUND_NS; }
      slept := slept + ROUND_NS;
    }
  }

  // --- what follows for callers ---

  /** Set, environment and bound leave one answer: whether entries are ready, which error, what time passed. */
  lemma OneConclusion(asked: seq<PollFd>, was: seq<Desc>, env: nat -> nat -> Reply, bound: Option<nat>, rounds: nat,
                      r: Answer, slept: nat, last: nat, r': Answer, slept': nat, last': nat)
    requires Concludes(asked, was, env, bound, rounds, r, slept, last)
    requires Concludes(asked, was, env, bound, rounds, r', slept', last')
    ensures last == last' && slept == slept'
    ensures r == r' || (r.Count? && r'.Count? && r.n > 0 && r'.n > 0)
  {
    if last < last' { Sooner(asked, was, env, bound, rounds, r, slept, last, r', slept', last'); }
    if last' < last { Sooner(asked, was, env, bound, rounds, r', slept', last', r, slept, last); }
    if r.Failure? && r'.Failure? {
      var h :| 0 <= h < |asked| && RefusedFirst(asked, was, env(last), h, r.e);
      var h' :| 0 <= h' < |asked| && RefusedFirst(asked, was, env(last), h', r'.e);
      assert h == h';
    }
  }

  lemma Sooner(asked: seq<PollFd>, was: seq<Desc>, env: nat -> nat -> Reply, bound: Option<nat>, rounds: nat,
               r: Answer, slept: nat, last: nat, r': Answer, slept': nat, last': nat)
    requires Concludes(asked, was, env, bound, rounds, r, slept, last)
    requires Concludes(asked, was, env, bound, rounds, r', slept', last')
    ensures last' <= last
  {
  }

  /** An environment that never answers with an error is never reported to have failed. */
  lemma NoErrorNoFailure(asked: seq<PollFd>, was: seq<Desc>, env: nat -> nat -> Reply, bound: Option<nat>,
                         rounds: nat, r: Answer, slept: nat, last: nat)
    requires Concludes(asked, was, env, bound, rounds, r, slept, last)
    requires forall q, j :: !env(q)(j).Broken?
    ensures !r.Failure?
  {
  }

  /** A set of which nothing is ready and for which nothing comes: none ready, once the bound is spent, which is
      before a whole round more than it. */
  lemma IdleTakesTheBound(asked: seq<PollFd>, was: seq<Desc>, env: nat -> nat -> Reply, bound: nat,
                          rounds: nat, r: Answer, slept: nat, last: nat)
    requires Concludes(asked, was, env, Some(bound), rounds, r, slept, last)
    requires forall q :: Uneventful(asked, was, env(q))
    ensures r == Count(0)
    ensures if Handed(asked, was) then slept == 0 && last == 0 else bound <= slept < bound + ROUND_NS
  {
    assert Uneventful(asked, was, env(last));
  }

  /** A refusal in the first round with nothing ready: its error is the answer, at once. */
  lemma RefusalIsAnswered(asked: seq<PollFd>, was: seq<Desc>, env: nat -> nat -> Reply, bound: Option<nat>,
                          rounds: nat, r: Answer, slept: nat, last: nat, h: nat)
    requires Concludes(asked, was, env, bound, rounds, r, slept, last)
    requires h < |asked| && Refused(asked[h], was, env(0)(h)) && !SomeReady(asked, was, env(0))
    ensures r.Failure? && slept == 0 && last == 0
  {
  }
}
