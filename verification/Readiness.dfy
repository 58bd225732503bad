/**
  What a readiness enquiry takes and holds, so that it is not lost: one byte of a connection, or the
  end of it, and one message of a datagram endpoint. The bytes that the other side will have sent and
  that have not been taken are `coming`.
*/
module Readiness {
  import opened Options

  type Byte = bv8

  /** A negated errno value. */
  type Errno = e: int | e < 0 witness -1

  // --- a connection ---

  datatype Input = Input(held: Option<Byte>, ended: bool, coming: seq<Byte>)

  /** What the environment answers a read: nothing in time, an error, or the number of bytes it gave,
      which is zero at the end of the stream. */
  datatype Io = Again | Failed(e: Errno) | Took(k: nat)

  predicate Legit(io: Io, coming: seq<Byte>, len: nat) {
    io.Took? ==> io.k <= len && io.k <= |coming| && (io.k == 0 && len > 0 ==> coming == [])
  }

  datatype Outcome = Again' | Failed'(e: Errno) | Got(bytes: seq<Byte>)

  function Held(x: Input): seq<Byte> { if x.held.Some? then [x.held.value] else [] }

  /** What a reader will be given, in order. */
  function Left(x: Input): seq<Byte> { Held(x) + x.coming }

  predicate Ready(x: Input) { x.held.Some? || x.ended }

  /** A byte is held or the end is, never both, and the end is held only at the end. */
  predicate Honest(x: Input) { (x.ended ==> x.coming == []) && !(x.held.Some? && x.ended) }

  datatype Ahead = Nothing | Byte(b: Byte) | End

  /** `okm_take_ahead`. */
  function TakenAhead(x: Input, len: nat): (Input, Ahead) {
    if x.held.Some? && len > 0 then (x.(held := None), Byte(x.held.value))
    else if x.ended then (x.(ended := false), End)
    else (x, Nothing)
  }

  /** `wait_in`: the environment is asked for one byte, unless something is held. The answer is one for input, zero
      for none in time, and negative for an error. */
  function Waited(x: Input, io: Io): (Input, int)
    requires Legit(io, x.coming, 1)
  {
    if Ready(x) then (x, 1)
    else match io
      case Again => (x, 0)
      case Failed(e) => (x, e as int)
      case Took(k) =>
        if k == 0 then (x.(ended := true), 1)
        else (x.(held := Some(x.coming[0]), coming := x.coming[1..]), 1)
  }

  /** `okm_sock_recv` on a connection; the last part says whether the environment was asked. */
  function Received(x: Input, len: nat, io: Io): (Input, Outcome, bool)
    requires Legit(io, x.coming, len)
  {
    var (y, a) := TakenAhead(x, len);
    match a
    case End => (y, Got([]), false)
    case Byte(b) => (y, Got([b]), false)
    case Nothing =>
      match io
      case Again => (y, Again', true)
      case Failed(e) => (y, Failed'(e), true)
      case Took(k) => (y.(coming := x.coming[k..]), Got(x.coming[..k]), true)
  }

  /** A call on a connection, with what the environment answers if it is asked. */
  datatype Call = Enquire(io: Io) | Receive(len: nat, io: Io)

  predicate Enabled(x: Input, c: Call) { Legit(c.io, x.coming, if c.Enquire? then 1 else c.len) }

  function After(x: Input, c: Call): Input
    requires Enabled(x, c)
  {
    match c
    case Enquire(io) => Waited(x, io).0
    case Receive(len, io) => Received(x, len, io).0
  }

  function Given(x: Input, c: Call): seq<Byte>
    requires Enabled(x, c)
  {
    match c
    case Enquire(_) => []
    case Receive(len, io) => if Received(x, len, io).1.Got? then Received(x, len, io).1.bytes else []
  }

  predicate Runs(x: Input, cs: seq<Call>)
    decreases |cs|
  {
    cs == [] || (Enabled(x, cs[0]) && Runs(After(x, cs[0]), cs[1..]))
  }

  function Finally(x: Input, cs: seq<Call>): Input
    requires Runs(x, cs)
    decreases |cs|
  {
    if cs == [] then x else Finally(After(x, cs[0]), cs[1..])
  }

  /** All that the receives of a run delivered. */
  function Delivered(x: Input, cs: seq<Call>): seq<Byte>
    requires Runs(x, cs)
    decreases |cs|
  {
    if cs == [] then [] else Given(x, cs[0]) + Delivered(After(x, cs[0]), cs[1..])
  }

  lemma CallConserves(x: Input, c: Call)
    requires Enabled(x, c) && Honest(x)
    ensures Given(x, c) + Left(After(x, c)) == Left(x) && Honest(After(x, c))
  {
    if c.Receive? {
      if x.held.Some? && c.len == 0 {
        assert c.io.Took? ==> c.io.k == 0;
      }
    }
  }

  /** Whatever enquiries and receives are made, and whatever the environment answers, what was
      delivered and what is left are the original stream, in order. */
  lemma {:induction false} Conservation(x: Input, cs: seq<Call>)
    requires Honest(x) && Runs(x, cs)
    ensures Delivered(x, cs) + Left(Finally(x, cs)) == Left(x) && Honest(Finally(x, cs))
    decreases |cs|
  {
    if cs != [] {
      var y := After(x, cs[0]);
      CallConserves(x, cs[0]);
      Conservation(y, cs[1..]);
      Regroup(Given(x, cs[0]), Delivered(y, cs[1..]), Left(Finally(y, cs[1..])));
    }
  }

  lemma Regroup(a: seq<Byte>, b: seq<Byte>, c: seq<Byte>)
    ensures (a + b) + c == a + (b + c)
  {
  }

  /** An enquiry answers what was held or else what the environment answered, an error is its own and changes
      nothing, and what makes the connection ready is a positive answer and nothing else. */
  lemma EnquiryAnswers(x: Input, io: Io)
    requires Legit(io, x.coming, 1)
    ensures var (y, r) := Waited(x, io);
      && (r > 0 <==> Ready(x) || io.Took?)
      && (r == 0 <==> !Ready(x) && io == Again)
      && (r < 0 <==> !Ready(x) && io.Failed?)
      && (r < 0 ==> r == io.e)
      && (r <= 0 || Ready(x) ==> y == x)
      && (r > 0 <==> Ready(y))
  {
  }

  /** A receive asks the environment exactly when it has nothing to give of what is held, and then passes on what it
      is answered: silence, an error, or so many bytes. */
  lemma ReceiveAnswers(x: Input, len: nat, io: Io)
    requires Legit(io, x.coming, len)
    ensures var (y, out, asked) := Received(x, len, io);
      && (asked <==> !x.ended && (x.held.None? || len == 0))
      && (out == Again' <==> asked && io == Again)
      && (forall e :: out == Failed'(e) <==> asked && io == Failed(e))
      && (out.Got? ==> |out.bytes| <= len && (asked ==> io.Took? && |out.bytes| == io.k))
      && (asked && !io.Took? ==> y == x)
  {
  }

  /** A connection that an enquiry found ready: the next receive of a byte or more completes from what is
      held, without asking the environment, and gives the next byte, or the end at the end. */
  lemma ReadyConnectionReceives(x: Input, io: Io, len: nat, io': Io)
    requires Honest(x) && Legit(io, x.coming, 1) && len > 0
    requires var (y, r) := Waited(x, io); r == 1 && Legit(io', y.coming, len)
    ensures var (y, _) := Waited(x, io);
      var (_, out, asked) := Received(y, len, io');
      && Ready(y) && !asked
      && out == Got(if Left(x) == [] then [] else [Left(x)[0]])
  {
  }

  /** A receive of a byte or more that gives none does so at the end, and only there; a receive of no
      bytes keeps the byte that is held. */
  lemma EmptyReceiveIsTheEnd(x: Input, len: nat, io: Io)
    requires Honest(x) && Legit(io, x.coming, len)
    ensures var (y, out, _) := Received(x, len, io);
      && (len > 0 && out.Got? ==> (out.bytes == [] <==> Left(x) == []))
      && (len == 0 ==> y.held == x.held && y.coming == x.coming)
  {
  }

  /** The end is held for one receive: the one after it asks again. */
  lemma EndIsHeldOnce(x: Input, len: nat, io: Io, len': nat, io': Io)
    requires Honest(x) && x.ended && Legit(io, x.coming, len)
    requires Legit(io', Received(x, len, io).0.coming, len')
    ensures var (y, out, asked) := Received(x, len, io);
      out == Got([]) && !asked && !Ready(y) && Received(y, len', io').2
  {
  }

  // --- a datagram endpoint ---

  type Message = seq<Byte>

  const DGRAM_MAX: nat := 65536

  datatype Endpoint = Endpoint(pend: Option<Message>, coming: seq<Message>)

  /** As much of a message as a buffer takes; the rest is lost. */
  function Cut(m: Message, len: nat): (cut: Message)
    ensures cut <= m && |cut| == if |m| < len then |m| else len
  {
    if |m| < len then m else m[..len]
  }

  /** The messages a receiver will be given, in order. */
  function Queue(e: Endpoint): seq<Message> { (if e.pend.Some? then [e.pend.value] else []) + e.coming }

  /** No message is longer than a datagram carries. */
  predicate Carried(e: Endpoint) { forall i :: 0 <= i < |e.coming| ==> |e.coming[i]| <= DGRAM_MAX }

  /** A call, and whether a message arrives in time if the environment is asked. */
  datatype DatagramCall = EnquireMessage(arrives: bool) | ReceiveMessage(len: nat, arrives: bool)

  /** `okm_sock_wait_in` and `okm_sock_recv` on a datagram socket: the message delivered, if one is. */
  function DatagramStep(e: Endpoint, c: DatagramCall): (Endpoint, Option<Message>) {
    match c
    case EnquireMessage(arrives) =>
      if e.pend.Some? || !arrives || e.coming == [] then (e, None)
      else (Endpoint(Some(Cut(e.coming[0], DGRAM_MAX)), e.coming[1..]), None)
    case ReceiveMessage(len, arrives) =>
      if e.pend.Some? then (e.(pend := None), Some(Cut(e.pend.value, len)))
      else if !arrives || e.coming == [] then (e, None)
      else (e.(coming := e.coming[1..]), Some(Cut(e.coming[0], len)))
  }

  function DatagramFinally(e: Endpoint, cs: seq<DatagramCall>): Endpoint
    decreases |cs|
  {
    if cs == [] then e else DatagramFinally(DatagramStep(e, cs[0]).0, cs[1..])
  }

  /** The messages delivered, each with the room its receiver had. */
  function Messages(e: Endpoint, cs: seq<DatagramCall>): seq<(nat, Message)>
    decreases |cs|
  {
    if cs == [] then []
    else
      var (f, m) := DatagramStep(e, cs[0]);
      (if m.Some? && cs[0].ReceiveMessage? then [(cs[0].len, m.value)] else []) + Messages(f, cs[1..])
  }

  /** One call: an enquiry changes nothing that a receiver sees, a receive takes the first message. */
  lemma DatagramStepConserves(e: Endpoint, c: DatagramCall)
    requires Carried(e)
    ensures var (f, m) := DatagramStep(e, c);
      && Carried(f)
      && (m.None? ==> Queue(f) == Queue(e))
      && (m.Some? ==> c.ReceiveMessage? && Queue(e) != [])
      && (m.Some? ==> Queue(f) == Queue(e)[1..] && m.value == Cut(Queue(e)[0], c.len))
  {
    if c.EnquireMessage? && e.pend.None? && e.coming != [] {
      assert Cut(e.coming[0], DGRAM_MAX) == e.coming[0];
      assert [e.coming[0]] + e.coming[1..] == e.coming;
    }
  }

  /** These are the first messages of a queue, each cut to the room it was given, and that is the rest. */
  ghost predicate FromFront(d: seq<(nat, Message)>, q: seq<Message>, rest: seq<Message>) {
    && |d| <= |q| && rest == q[|d|..]
    && forall i :: 0 <= i < |d| ==> d[i].1 == Cut(q[i], d[i].0)
  }

  lemma OneMore(first: (nat, Message), d: seq<(nat, Message)>, q: seq<Message>, rest: seq<Message>)
    requires q != [] && first.1 == Cut(q[0], first.0) && FromFront(d, q[1..], rest)
    ensures FromFront([first] + d, q, rest)
  {
    var all := [first] + d;
    assert q[1..][|d|..] == q[|d| + 1..];
    forall i | 0 <= i < |all| ensures all[i].1 == Cut(q[i], all[i].0) {
      if i > 0 {
        assert all[i] == d[i - 1] && q[1..][i - 1] == q[i];
      }
    }
  }

  /** Whatever enquiries and receives are made, the messages delivered are the first ones sent, in order,
      each cut only to the room of the receive that took it, and the others are still to come. */
  lemma {:induction false} MessageConservation(e: Endpoint, cs: seq<DatagramCall>)
    requires Carried(e)
    ensures FromFront(Messages(e, cs), Queue(e), Queue(DatagramFinally(e, cs)))
    decreases |cs|
  {
    if cs != [] {
      var (f, m) := DatagramStep(e, cs[0]);
      DatagramStepConserves(e, cs[0]);
      MessageConservation(f, cs[1..]);
      if m.Some? {
        OneMore((cs[0].len, m.value), Messages(f, cs[1..]), Queue(e), Queue(DatagramFinally(f, cs[1..])));
      } else {
        assert Messages(e, cs) == Messages(f, cs[1..]);
      }
    }
  }

  /** An enquiry finds a message exactly when one is held or one arrives, and so does a receive. */
  lemma MessageFound(e: Endpoint, arrives: bool, len: nat)
    ensures var found := e.pend.Some? || (arrives && e.coming != []);
      && (DatagramStep(e, EnquireMessage(arrives)).0.pend.Some? <==> found)
      && (DatagramStep(e, ReceiveMessage(len, arrives)).1.Some? <==> found)
      && (!found ==> DatagramStep(e, EnquireMessage(arrives)) == (e, None))
  {
  }

  /** An endpoint that an enquiry found ready: the next receive completes without a message arriving, and
      gives what it would have given without the enquiry. */
  lemma ReadyEndpointReceives(e: Endpoint, arrives: bool, len: nat, later: bool)
    requires Carried(e) && DatagramStep(e, EnquireMessage(arrives)).0.pend.Some?
    ensures var f := DatagramStep(e, EnquireMessage(arrives)).0;
      && DatagramStep(f, ReceiveMessage(len, later)) == DatagramStep(f, ReceiveMessage(len, false))
      && Queue(e) != [] && DatagramStep(f, ReceiveMessage(len, later)).1 == Some(Cut(Queue(e)[0], len))
  {
    DatagramStepConserves(e, EnquireMessage(arrives));
  }
}
