/**
  `reap` as it runs on its own: one walk over the linked list, which unlinks, waits for and frees the records
  that are finished and begins again behind each, against what it comes to in one go.
*/
module DoneList {
  import opened Options
  import opened Reaping

  /** The entries that stay, and those that go, in their order. */
  function Kept(list: seq<nat>, done: set<nat>): seq<nat> {
    if list == [] then [] else (if list[0] in done then [] else [list[0]]) + Kept(list[1..], done)
  }

  function Gone(list: seq<nat>, done: set<nat>): seq<nat> {
    if list == [] then [] else (if list[0] in done then [list[0]] else []) + Gone(list[1..], done)
  }

  /** The contexts of the records of a list, in their order. */
  function TasksOf(heap: map<nat, Record>, list: seq<nat>): seq<nat> {
    if list == [] then []
    else (if At(heap, list[0]).task.Some? then [At(heap, list[0]).task.value] else []) + TasksOf(heap, list[1..])
  }

  function Finished(heap: map<nat, Record>): set<nat> { set a | a in heap && heap[a].finished }

  /** The first entry that goes, taken out, is the first that is gone, and changes nothing of what stays. */
  lemma {:induction false} FirstGone(list: seq<nat>, done: set<nat>, i: nat)
    requires i < |list| && list[i] in done && forall j :: 0 <= j < i ==> list[j] !in done
    ensures Kept(Removed(list, i), done) == Kept(list, done)
    ensures Gone(list, done) == [list[i]] + Gone(Removed(list, i), done)
  {
    if i == 0 {
      assert Removed(list, 0) == list[1..];
    } else {
      FirstGone(list[1..], done, i - 1);
      RemovedCons(list, i);
      assert Removed(list, i)[1..] == Removed(list[1..], i - 1);
    }
  }

  lemma {:induction false} NoneGone(list: seq<nat>, done: set<nat>)
    requires forall a :: a in list ==> a !in done
    ensures Kept(list, done) == list && Gone(list, done) == []
  {
    if list != [] { NoneGone(list[1..], done); }
  }

  /** What stays and what goes is the whole list, each entry in exactly one of the two. */
  lemma {:induction false} KeptOrGone(list: seq<nat>, done: set<nat>, a: nat)
    ensures a in Kept(list, done) <==> a in list && a !in done
    ensures a in Gone(list, done) <==> a in list && a in done
    ensures |Kept(list, done)| + |Gone(list, done)| == |list|
  {
    if list != [] { KeptOrGone(list[1..], done, a); }
  }

  /** The record is as it was, but for its link. */
  predicate SameRecord(r: Record, r': Record) { r'.task == r.task && r'.finished == r.finished }

  /** A list, the records and the waits so far, and what they have become when some of the finished records
      have been taken: what is yet to stay is the same, and what is yet to go follows what has gone. */
  ghost predicate Reaped(h0: map<nat, Record>, l0: seq<nat>, j0: seq<nat>, h: map<nat, Record>, l: seq<nat>,
                         j: seq<nat>) {
    var done := Finished(h0);
    && Kept(l, done) == Kept(l0, done)
    && j + TasksOf(h0, Gone(l, done)) == j0 + TasksOf(h0, Gone(l0, done))
    && (forall a :: a in h ==> a in h0 && SameRecord(h0[a], h[a]))
    && (forall a :: a in l ==> a in l0)
    && (forall a :: a in h0 && a !in h ==> a in l0 && a in done)
    && (forall a :: a in l0 && a !in l ==> a !in h && a in done)
  }

  lemma ReapedOne(h0: map<nat, Record>, l0: seq<nat>, j0: seq<nat>, h: map<nat, Record>, l: seq<nat>, j: seq<nat>,
                  i: nat, h': map<nat, Record>, j': seq<nat>)
    requires Reaped(h0, l0, j0, h, l, j) && Distinct(l) && i < |l| && l[i] in h && h[l[i]].finished
    requires h[l[i]].task.Some?
    requires forall k :: 0 <= k < i ==> l[k] !in Finished(h0)
    requires j' == j + [h[l[i]].task.value]
    requires h'.Keys == h.Keys - {l[i]} && forall a :: a in h' ==> SameRecord(h[a], h'[a])
    ensures Reaped(h0, l0, j0, h', Removed(l, i), j')
  {
    var done, l' := Finished(h0), Removed(l, i);
    FirstGone(l, done, i);
    forall a ensures a in l' <==> a in l && a != l[i] { RemovedMembers(l, i, a); }
    assert TasksOf(h0, Gone(l, done)) == [h[l[i]].task.value] + TasksOf(h0, Gone(l', done)) by {
      assert ([l[i]] + Gone(l', done))[1..] == Gone(l', done);
    }
    Regroup(j, [h[l[i]].task.value], TasksOf(h0, Gone(l', done)));
  }

  lemma Regroup(a: seq<nat>, b: seq<nat>, c: seq<nat>)
    ensures a + (b + c) == a + b + c
  {
  }

  /** When none of what is left is finished, all of it has been done. */
  lemma {:induction false} ReapedAll(h0: map<nat, Record>, l0: seq<nat>, j0: seq<nat>, h: map<nat, Record>,
                                     l: seq<nat>, j: seq<nat>)
    requires Reaped(h0, l0, j0, h, l, j) && forall k :: 0 <= k < |l| ==> l[k] !in Finished(h0)
    ensures l == Kept(l0, Finished(h0)) && j == j0 + TasksOf(h0, Gone(l0, Finished(h0)))
    ensures h.Keys == h0.Keys - (set a | a in l0 && a in Finished(h0))
  {
    NoneGone(l, Finished(h0));
    assert j + [] == j;
  }

  class Done {
    var heap: map<nat, Record>
    var head: Option<nat>
    var joined: seq<nat>
    ghost var list: seq<nat>

    constructor ()
      ensures heap == map[] && head == None && joined == [] && list == [] && Valid()
    {
      heap, head, joined, list := map[], None, [], [];
    }

    ghost predicate Valid()
      reads this
    {
      && Chain(heap, head, list)
      && forall a :: a in list && a in heap ==> heap[a].task.Some?
    }

    ghost function Abs(): State
      reads this
    {
      State(heap, head, None, map[], joined, list)
    }

    /** What the place names. */
    method LoadAt(p: Place, ghost i: nat) returns (link: Option<nat>)
      requires Valid() && Stands(Abs(), p, i)
      ensures link == if i < |list| then Some(list[i]) else None
    {
      StandsLoads(Abs(), p, i);
      match p
      case Head => link := head;
      case Next(a) => link := heap[a].next;
    }

    /** The record the place names leaves the list. */
    method Unlink(p: Place, t: nat, ghost i: nat)
      requires Valid() && i < |list| && list[i] == t && Stands(Abs(), p, i)
      modifies this
      ensures Valid() && list == Removed(old(list), i) && joined == old(joined)
      ensures heap.Keys == old(heap.Keys) && forall a :: a in heap ==> SameRecord(old(heap)[a], heap[a])
      ensures t !in list && forall a :: a in list ==> a in old(list)
    {
      RelinkedChain(Abs(), i);
      ghost var was := list;
      forall a ensures a in Removed(was, i) <==> a in was && a != t { RemovedMembers(was, i, a); }
      match p {
        case Head => head := heap[t].next;
        case Next(b) => heap := heap[b := heap[b].(next := heap[t].next)];
      }
      list := Removed(list, i);
    }

    /** A record that is not on the list is given back. */
    method Free(t: nat)
      requires Valid() && t !in list
      modifies this
      ensures Valid() && list == old(list) && joined == old(joined) && heap == old(heap) - {t}
    {
      ChainKeeps(heap, heap - {t}, head, list);
      heap := heap - {t};
    }

    /** A context is waited for. */
    method Join(t: nat)
      requires Valid() && t in heap && heap[t].task.Some?
      modifies this`joined
      ensures Valid() && joined == old(joined) + [heap[t].task.value]
    {
      joined := joined + [heap[t].task.value];
    }

    /** A record is put at the front of the list. */
    method Push(t: nat)
      requires Valid() && t in heap && t !in list && heap[t].task.Some?
      modifies this
      ensures Valid() && list == [t] + old(list) && joined == old(joined)
      ensures heap.Keys == old(heap.Keys) && forall a :: a in heap ==> SameRecord(old(heap)[a], heap[a])
    {
      ghost var s := Abs().(contexts := map[0 := Context(First, Linking(t))]);
      ghost var u := s.(heap := heap[t := heap[t].(next := head)], head := Some(t), list := [t] + list);
      LinkChain(s, Go(u, 0, Linked(t)), 0, t);
      heap := heap[t := heap[t].(next := head)];
      head := Some(t);
      list := [t] + list;
    }

    /** One record: unlinked, waited for and freed. */
    method TakeOne(p: Place, t: nat, ghost i: nat)
      requires Valid() && i < |list| && list[i] == t && Stands(Abs(), p, i)
      modifies this
      ensures Valid() && list == Removed(old(list), i) && forall a :: a in list ==> a in old(list)
      ensures old(t in heap && heap[t].task.Some?) && joined == old(joined + [heap[t].task.value])
      ensures heap.Keys == old(heap.Keys) - {t} && forall a :: a in heap ==> SameRecord(old(heap)[a], heap[a])
    {
      Unlink(p, t, i);
      Join(t);
      Free(t);
    }

    /** One look: a record that is not finished is passed, and one that is is taken and the walk begins again.
        The ghost parameters are what `Reap` began with. */
    method LookAt(p: Place, t: nat, ghost i: nat, ghost h0: map<nat, Record>, ghost l0: seq<nat>, ghost j0: seq<nat>)
      returns (q: Place, ghost k: nat)
      requires Valid() && Stands(Abs(), p, i) && i < |list| && list[i] == t
      requires (forall j :: 0 <= j < i ==> list[j] !in Finished(h0)) && Reaped(h0, l0, j0, heap, list, joined)
      modifies this
      ensures Valid() && Stands(Abs(), q, k) && Reaped(h0, l0, j0, heap, list, joined)
      ensures forall j :: 0 <= j < k ==> list[j] !in Finished(h0)
      ensures |list| < old(|list|) || (list == old(list) && k == i + 1)
    {
      if !heap[t].finished { return Next(t), i + 1; }
      ghost var h, l, j := heap, list, joined;
      TakeOne(p, t, i);
      ReapedOne(h0, l0, j0, h, l, j, i, heap, joined);
      return Head, 0;
    }

    /** The list is left with the records that were not finished, each of the others has been waited for once,
        in the order of the list, and is free. */
    method Reap()
      requires Valid()
      modifies this
      ensures Valid()
      ensures list == Kept(old(list), Finished(old(heap)))
      ensures joined == old(joined) + TasksOf(old(heap), Gone(old(list), Finished(old(heap))))
      ensures heap.Keys == old(heap.Keys) - (set a | a in old(list) && a in Finished(old(heap)))
      ensures forall a :: a in heap ==> SameRecord(old(heap)[a], heap[a])
    {
      var p, link := Head, head;
      ghost var i: nat := 0;
      while link.Some?
        invariant Valid() && Stands(Abs(), p, i) && link == if i < |list| then Some(list[i]) else None
        invariant forall j :: 0 <= j < i ==> list[j] !in Finished(old(heap))
        invariant Reaped(old(heap), old(list), old(joined), heap, list, joined)
        decreases |list|, |list| - i
      {
        p, i := LookAt(p, link.value, i, old(heap), old(list), old(joined));
        link := LoadAt(p, i);
      }
      ReapedAll(old(heap), old(list), old(joined), heap, list, joined);
    }
  }
}
