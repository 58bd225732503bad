/**
  The socket table in place: the entries of `okm_net.c` and the calls that change them, each shown to
  do what it does to the value in `Sockets`.
*/
module SocketTable {
  import opened Options
  import opened Sockets

  class Table {
    const slots: array<Slot>
    var closed: seq<nat>           // what has been given back to the environment, in order
    ghost var obtained: set<nat>

    ghost predicate Valid()
      reads this
    {
      slots.Length == MAX_SOCK
    }

    ghost function Abs(): State
      reads this, slots
    {
      State(slots[..], closed, obtained)
    }

    constructor ()
      ensures Valid() && fresh(slots) && Abs() == INITIAL
    {
      slots := new Slot[MAX_SOCK](_ => EMPTY);
      closed := [];
      obtained := {};
    }

    /** `slot_alloc`. */
    method SlotAlloc(typ: Type) returns (i: int)
      requires Valid()
      modifies slots
      ensures var j := FirstFree(old(slots[..]), 0);
        if j == MAX_SOCK then i == -1 && slots[..] == old(slots[..])
        else i == j && slots[..] == old(slots[..])[j := Slot(New, typ, None, None)]
    {
      i := 0;
      while i < slots.Length
        invariant 0 <= i <= slots.Length
        invariant FirstFree(slots[..], 0) == FirstFree(slots[..], i)
      {
        if slots[i].phase == Free {
          slots[i] := Slot(New, typ, None, None);
          return;
        }
        i := i + 1;
      }
      i := -1;
    }

    /** `kal_net_close` and its like. */
    method Give(o: Option<nat>)
      modifies this`closed
      ensures Abs() == Close(old(Abs()), o)
    {
      if o.Some? { closed := closed + [o.value]; }
    }

    /** `okm_sock_release`. */
    method Release(i: nat)
      requires Valid() && i < MAX_SOCK
      modifies this`closed, slots
      ensures Abs() == Released(old(Abs()), i)
    {
      var x := slots[i];
      if x.phase == Connected || x.phase == Listening || x.phase == Open {
        Give(x.obj);
      }
      Give(x.pend);
      slots[i] := x.(phase := Free, obj := None, pend := None);
    }

    /** The entry takes what the environment gave. */
    method TakeObject(i: nat, got: Option<nat>, phase: Phase) returns (r: Answer)
      requires Valid() && i < MAX_SOCK
      modifies this`obtained, slots
      ensures (Abs(), r) == Take(old(Abs()), i, got, phase)
    {
      if got.None? { return Err(Environment); }
      slots[i] := slots[i].(phase := phase, obj := got);
      obtained := obtained + {got.value};
      r := Done;
    }

    /** `okm_sock_open`, from where it looks for a descriptor. */
    method OpenSocket(typ: Type, fd: bool) returns (r: Answer)
      requires Valid()
      modifies slots
      ensures (Abs(), r) == Do(old(Abs()), Socket(typ, fd))
    {
      if !fd { return Err(EMFILE); }
      var i := SlotAlloc(typ);
      r := if i < 0 then Err(ENFILE) else Gave(i);
    }

    /** `okm_sock_bind`. */
    method BindSocket(i: nat, got: Option<nat>) returns (r: Answer)
      requires Valid() && Enabled(Abs(), Bind(i, got))
      modifies this`obtained, slots
      ensures (Abs(), r) == Do(old(Abs()), Bind(i, got))
    {
      if slots[i].phase != New { return Err(EINVAL); }
      r := Done;
      if slots[i].typ == Dgram {
        r := TakeObject(i, got, Open);
      }
    }

    /** `okm_sock_listen`. */
    method ListenSocket(i: nat, got: Option<nat>) returns (r: Answer)
      requires Valid() && Enabled(Abs(), Listen(i, got))
      modifies this`obtained, slots
      ensures (Abs(), r) == Do(old(Abs()), Listen(i, got))
    {
      if slots[i].typ != Stream { return Err(EOPNOTSUPP); }
      if slots[i].phase == Listening { return Done; }
      if slots[i].phase != New { return Err(EINVAL); }
      r := TakeObject(i, got, Listening);
    }

    /** `okm_sock_connect`. */
    method ConnectSocket(i: nat, got: Option<nat>) returns (r: Answer)
      requires Valid() && Enabled(Abs(), Connect(i, got))
      modifies this`obtained, slots
      ensures (Abs(), r) == Do(old(Abs()), Connect(i, got))
    {
      if slots[i].typ == Dgram {
        r := Done;
        if slots[i].phase == New {
          r := TakeObject(i, got, Open);
        }
        return;
      }
      if slots[i].phase == Connected { return Err(EISCONN); }
      if slots[i].phase != New { return Err(EINVAL); }
      r := TakeObject(i, got, Connected);
    }

    /** `adopt`. */
    method AdoptConnection(c: nat, fd: bool) returns (r: Answer)
      requires Valid()
      modifies this`closed, slots
      ensures (Abs(), r) == Adopt(old(Abs()), c, fd)
    {
      if !fd {
        Give(Some(c));
        return Err(EMFILE);
      }
      var i := SlotAlloc(Stream);
      if i < 0 {
        Give(Some(c));
        return Err(ENFILE);
      }
      slots[i] := slots[i].(phase := Connected, obj := Some(c), typ := Stream);
      assert slots[..] == old(slots[..])[i := Slot(Connected, Stream, Some(c), None)];
      r := Gave(i);
    }

    /** `okm_sock_accept`. */
    method AcceptSocket(i: nat, got: Option<nat>, fd: bool) returns (r: Answer)
      requires Valid() && Enabled(Abs(), Accept(i, got, fd))
      modifies this, slots
      ensures (Abs(), r) == Do(old(Abs()), Accept(i, got, fd))
    {
      if slots[i].phase != Listening { return Err(EINVAL); }
      var c;
      if slots[i].pend.Some? {
        c := slots[i].pend.value;
        slots[i] := slots[i].(pend := None);
      } else {
        if got.None? { return Err(Environment); }
        c := got.value;
        obtained := obtained + {c};
      }
      r := AdoptConnection(c, fd);
    }

    /** `okm_sock_wait_in`, for a listener. */
    method EnquireSocket(i: nat, heard: Heard) returns (r: Answer)
      requires Valid() && Enabled(Abs(), Enquire(i, heard))
      modifies this`obtained, slots
      ensures (Abs(), r) == Do(old(Abs()), Enquire(i, heard))
    {
      if slots[i].phase != Listening { return Ready(false); }
      if slots[i].pend.Some? { return Ready(true); }
      match heard
      case Silence => r := Ready(false);
      case Failure => r := Err(Environment);
      case Connection(o) =>
        slots[i] := slots[i].(pend := Some(o));
        obtained := obtained + {o};
        r := Ready(true);
    }
  }
}
