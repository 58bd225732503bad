/**
  The read-ahead of a description in place: the fields of `struct okm_desc` that a readiness enquiry
  sets and a receive clears, and what the environment has yet to give.
*/
module Description {
  import opened Options
  import opened Readiness

  class Connection {
    var ahead: bool
    var aheadByte: Byte
    var aheadEof: bool
    var coming: seq<Byte>

    ghost function Abs(): Input
      reads this
    {
      Input(if ahead then Some(aheadByte) else None, aheadEof, coming)
    }

    constructor (stream: seq<Byte>)
      ensures Abs() == Input(None, false, stream) && Honest(Abs())
    {
      ahead, aheadByte, aheadEof, coming := false, 0, false, stream;
    }

    /** `okm_take_ahead`. */
    method TakeAhead(len: nat) returns (a: Ahead)
      modifies this
      ensures (Abs(), a) == TakenAhead(old(Abs()), len)
    {
      if ahead && len > 0 {
        ahead := false;
        return Readiness.Byte(aheadByte);
      }
      if aheadEof {
        aheadEof := false;
        return End;
      }
      a := Nothing;
    }

    /** `wait_in` on a connection: it answers as `Waited` does, and the byte or the end that it came upon is held
        for the next receive. */
    method WaitIn(io: Io) returns (r: int)
      requires Legit(io, coming, 1)
      modifies this
      ensures (Abs(), r) == Waited(old(Abs()), io)
      ensures old(Honest(Abs())) ==> Honest(Abs()) && Left(Abs()) == old(Left(Abs()))
    {
      CallConserves'(Abs(), Enquire(io));
      if ahead || aheadEof { return 1; }
      match io
      case Again => r := 0;
      case Failed(e) => r := e;
      case Took(k) =>
        if k == 0 {
          aheadEof := true;
        } else {
          ahead, aheadByte, coming := true, coming[0], coming[1..];
        }
        r := 1;
    }

    lemma CallConserves'(x: Input, c: Call)
      requires Enabled(x, c)
      ensures Honest(x) ==> Given(x, c) + Left(After(x, c)) == Left(x) && Honest(After(x, c))
    {
      if Honest(x) { CallConserves(x, c); }
    }

    /** `okm_sock_recv` on a connection. */
    method Recv(len: nat, io: Io) returns (out: Outcome, asked: bool)
      requires Legit(io, coming, len)
      modifies this
      ensures (Abs(), out, asked) == Received(old(Abs()), len, io)
      ensures old(Honest(Abs())) ==>
                Honest(Abs()) && (if out.Got? then out.bytes else []) + Left(Abs()) == old(Left(Abs()))
    {
      CallConserves'(Abs(), Receive(len, io));
      var a := TakeAhead(len);
      match a
      case End => return Got([]), false;
      case Byte(b) => return Got([b]), false;
      case Nothing =>
        asked := true;
        match io
        case Again => out := Again';
        case Failed(e) => out := Failed'(e);
        case Took(k) =>
          out := Got(coming[..k]);
          coming := coming[k..];
    }
  }
}
