/**
  Contexts that are started, end, and are waited for later by whichever context next starts one
  (`__clone`, `entry` and `reap` in `okm_thread.c`), over every interleaving of any number of contexts.
  Records lie in a heap at addresses the environment gives, may give again once they are free, and links
  between records are addresses. What lies at an address that is not allocated is not known.
*/
module Reaping {
  import opened Options

  /** A context's record: the handle of the context once it has been started, whether the context has said
      that it has finished with the record, and the link of the list. */
  datatype Record = Record(task: Option<nat>, finished: bool, next: Option<nat>)

  /** A place that holds a link: the head of the list, or a record's own. */
  datatype Place = Head | Next(a: nat)

  /** Where a context is in `__clone`. */
  datatype Pc =
    | Outside
    | Entering                // `reap` is about to take the lock
    | Walking(p: Place)       // under the lock, about to look at what the place names
    | Taken(t: nat)           // under the lock, a record unlinked; about to release the lock
    | Joining(t: nat)
    | Freeing(t: nat)
    | Swept                   // under the lock, the list has been walked to its end
    | Allocating
    | Numbering(t: nat)       // about to take the lock for an identity
    | Numbered(t: nat)        // under the lock
    | Starting(t: nat)
    | Discarding(t: nat)      // the start failed; about to free the record
    | Pushing(t: nat)         // the start succeeded; about to take the lock
    | Linking(t: nat)         // under the lock
    | Linked(t: nat)          // under the lock, the record is on the list
    | Answering(t: nat)       // the lock released; about to read the identity in the record

  /** Where a context is in its life: one that the program began with, one that runs what it was started
      for, one that is about to clear the word its creator waits upon, one that is about to mark its record,
      one that is about to withdraw what is recorded of it, one that has ended. */
  datatype Life = First | Running(a: nat) | Clearing(a: nat) | Marking(a: nat) | Releasing | Ended

  datatype Context = Context(life: Life, pc: Pc)

  /** `list` is what the links spell out; nothing looks at it. */
  datatype State = State(
    heap: map<nat, Record>, head: Option<nat>, holder: Option<nat>, contexts: map<nat, Context>,
    joined: seq<nat>, list: seq<nat>)

  datatype Event =
    | Call(c: nat)                         // a context begins to start another
    | Return(c: nat)                       // what a context was started for is done
    | Run(c: nat, got: Option<nat>)        // its next step; `got` is what the environment gives, if asked

  predicate NeedsLock(pc: Pc) { pc.Entering? || pc.Numbering? || pc.Pushing? }

  predicate UnderLock(pc: Pc) {
    pc.Walking? || pc.Taken? || pc.Swept? || pc.Numbered? || pc.Linking? || pc.Linked?
  }

  /** What lies at an address. */
  function At(heap: map<nat, Record>, a: nat): Record {
    if a in heap then heap[a] else Record(None, false, None)
  }

  function Load(s: State, p: Place): Option<nat> {
    match p
    case Head => s.head
    case Next(a) => At(s.heap, a).next
  }

  function Store(s: State, p: Place, v: Option<nat>): State {
    match p
    case Head => s.(head := v)
    case Next(a) => s.(heap := s.heap[a := At(s.heap, a).(next := v)])
  }

  predicate Enabled(s: State, e: Event) {
    && e.c in s.contexts
    && var me := s.contexts[e.c];
       match e
       case Call(_) => me.pc.Outside? && (me.life.First? || me.life.Running?)
       case Return(_) => me.pc.Outside? && me.life.Running?
       case Run(c, got) =>
         if me.pc.Outside? then me.life.Clearing? || me.life.Marking? || me.life.Releasing?
         else
           && (NeedsLock(me.pc) ==> s.holder == None)
           && (me.pc.Joining? ==> HasEnded(s, At(s.heap, me.pc.t).task))
           && (me.pc.Allocating? && got.Some? ==> got.value !in s.heap)
           && (me.pc.Starting? && got.Some? ==> got.value !in s.contexts)
  }

  /** A wait for a context returns once the context has ended. */
  predicate HasEnded(s: State, task: Option<nat>) {
    task.Some? && task.value in s.contexts && s.contexts[task.value].life == Ended
  }

  function Go(s: State, c: nat, pc: Pc): State
    requires c in s.contexts
  {
    s.(contexts := s.contexts[c := s.contexts[c].(pc := pc)])
  }

  function Live(s: State, c: nat, life: Life): State
    requires c in s.contexts
  {
    s.(contexts := s.contexts[c := s.contexts[c].(life := life)])
  }

  /** The sequence without an element. */
  function Without(list: seq<nat>, a: nat): seq<nat> {
    if list == [] then [] else (if list[0] == a then [] else [list[0]]) + Without(list[1..], a)
  }

  /** One look of the walk: an end, a record to be passed, or a record to be unlinked. */
  function Look(s: State, c: nat, p: Place): State
    requires c in s.contexts
  {
    var link := Load(s, p);
    if link.None? then Go(s, c, Swept)
    else if !At(s.heap, link.value).finished then Go(s, c, Walking(Next(link.value)))
    else Go(Store(s, p, At(s.heap, link.value).next).(list := Without(s.list, link.value)), c, Taken(link.value))
  }

  function Ending(s: State, c: nat): State
    requires c in s.contexts
  {
    match s.contexts[c].life
    case Clearing(a) => Live(s, c, Marking(a))
    case Marking(a) => Live(s.(heap := s.heap[a := At(s.heap, a).(finished := true)]), c, Releasing)
    case Releasing => Live(s, c, Ended)
    case _ => s
  }

  /** The step of a context in `__clone`. */
  function Cloning(s: State, c: nat, got: Option<nat>): State
    requires c in s.contexts
  {
    match s.contexts[c].pc
    case Outside => s
    case Entering => Go(s.(holder := Some(c)), c, Walking(Head))
    case Walking(p) => Look(s, c, p)
    case Taken(t) => Go(s.(holder := None), c, Joining(t))
    case Joining(t) =>
      var task := At(s.heap, t).task;
      Go(s.(joined := s.joined + if task.Some? then [task.value] else []), c, Freeing(t))
    case Freeing(t) => Go(s.(heap := s.heap - {t}), c, Entering)
    case Swept => Go(s.(holder := None), c, Allocating)
    case Allocating =>
      if got.None? then Go(s, c, Outside)
      else Go(s.(heap := s.heap[got.value := Record(None, false, None)]), c, Numbering(got.value))
    case Numbering(t) => Go(s.(holder := Some(c)), c, Numbered(t))
    case Numbered(t) => Go(s.(holder := None), c, Starting(t))
    case Starting(t) =>
      if got.None? then Go(s, c, Discarding(t))
      else
        var u := Go(s, c, Pushing(t));
        u.(heap := s.heap[t := At(s.heap, t).(task := got)],
            contexts := u.contexts[got.value := Context(Running(t), Outside)])
    case Discarding(t) => Go(s.(heap := s.heap - {t}), c, Outside)
    case Pushing(t) => Go(s.(holder := Some(c)), c, Linking(t))
    case Linking(t) =>
      Go(s.(heap := s.heap[t := At(s.heap, t).(next := s.head)], head := Some(t), list := [t] + s.list), c, Linked(t))
    case Linked(t) => Go(s.(holder := None), c, Answering(t))
    case Answering(_) => Go(s, c, Outside)
  }

  function Apply(s: State, e: Event): State
    requires Enabled(s, e)
  {
    match e
    case Call(c) => Go(s, c, Entering)
    case Return(c) => Live(s, c, Clearing(s.contexts[c].life.a))
    case Run(c, got) => if s.contexts[c].pc.Outside? then Ending(s, c) else Cloning(s, c, got)
  }

  /** The addresses a step reads or writes. */
  function Touches(s: State, e: Event): set<nat>
    requires Enabled(s, e)
  {
    var me := s.contexts[e.c];
    match e
    case Call(_) => {}
    case Return(_) => {me.life.a}
    case Run(_, _) =>
      match me.pc
      case Outside => if me.life.Clearing? || me.life.Marking? then {me.life.a} else {}
      case Walking(p) =>
        (if p.Next? then {p.a} else {}) + if Load(s, p).Some? then {Load(s, p).value} else {}
      case Joining(t) => {t}
      case Freeing(t) => {t}
      case Numbered(t) => {t}
      case Starting(t) => {t}
      case Discarding(t) => {t}
      case Linking(t) => {t}
      case Answering(t) => {t}
      case _ => {}
  }

  // --- what holds ---

  /** A context in `__clone` has a record to itself. */
  predicate Owns(pc: Pc, t: nat) {
    match pc
    case Taken(u) => u == t
    case Joining(u) => u == t
    case Freeing(u) => u == t
    case Numbering(u) => u == t
    case Numbered(u) => u == t
    case Starting(u) => u == t
    case Discarding(u) => u == t
    case Pushing(u) => u == t
    case Linking(u) => u == t
    case _ => false
  }

  /** The record is one that no context has been started for. */
  predicate Unstarted(pc: Pc) { pc.Numbering? || pc.Numbered? || pc.Starting? || pc.Discarding? }

  /** The record is one that has been unlinked. */
  predicate Unlinked(pc: Pc) { pc.Taken? || pc.Joining? || pc.Freeing? }

  ghost predicate Distinct(list: seq<nat>) {
    forall i, j :: 0 <= i < j < |list| ==> list[i] != list[j]
  }

  /** What the link of an entry is to be. */
  function Following(list: seq<nat>, i: nat): Option<nat> {
    if i + 1 < |list| then Some(list[i + 1]) else None
  }

  /** The link of an entry is what it is to be. */
  ghost predicate Tied(heap: map<nat, Record>, list: seq<nat>, i: nat) {
    i < |list| && list[i] in heap && heap[list[i]].next == Following(list, i)
  }

  /** The links spell out the list. */
  ghost predicate Chain(heap: map<nat, Record>, head: Option<nat>, list: seq<nat>) {
    && Distinct(list)
    && head == (if list == [] then None else Some(list[0]))
    && (forall a :: a in list ==> a in heap)
    && (forall i :: 0 <= i < |list| ==> Tied(heap, list, i))
  }

  ghost predicate Locked(s: State) {
    && (s.holder.Some? ==> s.holder.value in s.contexts)
    && forall c :: c in s.contexts ==> (UnderLock(s.contexts[c].pc) <==> s.holder == Some(c))
  }

  ghost predicate Owned(s: State, c: nat, t: nat) { c in s.contexts && Owns(s.contexts[c].pc, t) }

  /** A record on the list, or one that a context has to itself, and never both, and never two contexts. */
  ghost predicate OneOwner(s: State) {
    && (forall c, t :: Owned(s, c, t) ==> t in s.heap && t !in s.list)
    && (forall c, d, t :: Owned(s, c, t) && Owned(s, d, t) ==> c == d)
    && (forall t :: t in s.heap && t !in s.list ==> exists c :: Owned(s, c, t))
  }

  /** A record is of a context that has been started, unless it has only just been made. */
  ghost predicate Started(s: State) {
    && (forall t :: t in s.list && t in s.heap ==> s.heap[t].task.Some?)
    && (forall c, t :: Owned(s, c, t) && t in s.heap ==>
          (s.heap[t].task.None? <==> Unstarted(s.contexts[c].pc)) &&
              (Unlinked(s.contexts[c].pc) ==> s.heap[t].finished))
    && (forall t :: t in s.heap && s.heap[t].task.None? ==> !s.heap[t].finished)
  }

  predicate Uses(life: Life, a: nat) { life == Running(a) || life == Clearing(a) || life == Marking(a) }

  predicate Past(life: Life) { life.Releasing? || life.Ended? }

  /** A context that has been started and not waited for has a record that says whose it is. */
  ghost predicate Has(s: State, k: nat, t: nat) { t in s.heap && s.heap[t].task == Some(k) }

  ghost predicate Tasks(s: State) {
    && (forall k, t :: Has(s, k, t) ==> k in s.contexts && !s.contexts[k].life.First?)
    && (forall k, t, u :: Has(s, k, t) && Has(s, k, u) ==> t == u)
    && (forall k, t :: Has(s, k, t) ==>
          if s.heap[t].finished then Past(s.contexts[k].life) else Uses(s.contexts[k].life, t))
    && (forall k, t :: k in s.contexts && Uses(s.contexts[k].life, t) ==> Has(s, k, t))
    && (forall k :: k in s.contexts && !s.contexts[k].life.First? ==> k in s.joined || exists t :: Has(s, k, t))
  }

  /** What has been waited for has ended, and its record is about to be freed or is gone. */
  ghost predicate Waited(s: State) {
    && Distinct(s.joined)
    && (forall k :: k in s.joined ==> k in s.contexts && s.contexts[k].life == Ended)
    && (forall k, t :: Has(s, k, t) && k in s.joined ==> exists c :: Owned(s, c, t) && s.contexts[c].pc == Freeing(t))
    && (forall c, t :: Owned(s, c, t) && s.contexts[c].pc == Freeing(t) && t in s.heap && s.heap[t].task.Some? ==>
          s.heap[t].task.value in s.joined)
  }

  /** A walk is at a place of the list, a record that has been put on the list under the lock is still on it,
      and a context that is ending is in no call. */
  ghost predicate Sane(s: State) {
    && (forall c :: c in s.contexts && s.contexts[c].pc.Walking? && s.contexts[c].pc.p.Next? ==>
          s.contexts[c].pc.p.a in s.list)
    && (forall c :: c in s.contexts && s.contexts[c].pc.Linked? ==> s.contexts[c].pc.t in s.list)
    && (forall c :: c in s.contexts && !s.contexts[c].life.First? && !s.contexts[c].life.Running? ==>
          s.contexts[c].pc.Outside?)
  }

  ghost predicate Inv(s: State) {
    Chain(s.heap, s.head, s.list) && Locked(s) && OneOwner(s) && Started(s) && Tasks(s) && Waited(s) && Sane(s)
  }

  // --- each step keeps it ---

  /** A step that only moves a context along, and perhaps takes or releases the lock. */
  ghost predicate Moves(s: State, t: State, c: nat) {
    && c in s.contexts && c in t.contexts && t == s.(holder := t.holder, contexts := s.contexts[c := t.contexts[c]])
    && (forall a :: Owns(t.contexts[c].pc, a) <==> Owns(s.contexts[c].pc, a))
    && (Unstarted(t.contexts[c].pc) <==> Unstarted(s.contexts[c].pc))
    && (Unlinked(t.contexts[c].pc) <==> Unlinked(s.contexts[c].pc))
    && (t.contexts[c].pc.Freeing? <==> s.contexts[c].pc.Freeing?)
    && (t.contexts[c].life.First? <==> s.contexts[c].life.First?)
    && (forall a :: Uses(t.contexts[c].life, a) <==> Uses(s.contexts[c].life, a))
    && (Past(t.contexts[c].life) <==> Past(s.contexts[c].life))
    && (s.contexts[c].life == Ended ==> t.contexts[c].life == Ended)
    && (t.contexts[c].pc.Walking? && t.contexts[c].pc.p.Next? ==> t.contexts[c].pc.p.a in s.list)
    && (t.contexts[c].pc.Linked? ==> t.contexts[c].pc.t in s.list)
    && (!t.contexts[c].life.First? && !t.contexts[c].life.Running? ==> t.contexts[c].pc.Outside?)
    && (if UnderLock(t.contexts[c].pc) then t.holder == Some(c) && (s.holder == None || s.holder == Some(c))
        else t.holder == if s.holder == Some(c) then None else s.holder)
  }

  ghost predicate SameOwners(s: State, t: State) {
    && s.contexts.Keys == t.contexts.Keys
    && (forall d, a :: Owned(t, d, a) <==> Owned(s, d, a))
    && forall d :: d in s.contexts ==> (t.contexts[d].pc.Freeing? <==> s.contexts[d].pc.Freeing?)
  }

  ghost predicate SameTasks(s: State, t: State) {
    && s.contexts.Keys == t.contexts.Keys && t.joined == s.joined
    && (forall k, a :: Has(t, k, a) <==> Has(s, k, a))
    && forall k :: k in s.contexts ==>
         && (t.contexts[k].life.First? <==> s.contexts[k].life.First?)
         && (s.contexts[k].life == Ended ==> t.contexts[k].life == Ended)
  }

  lemma OwnersKeep(s: State, t: State)
    requires OneOwner(s) && SameOwners(s, t) && t.heap.Keys == s.heap.Keys && t.list == s.list
    ensures OneOwner(t)
  {
    forall a | a in t.heap && a !in t.list ensures exists d :: Owned(t, d, a) {
      var d :| Owned(s, d, a);
      assert Owned(t, d, a);
    }
  }

  /** Each record tells of its context what is so. */
  ghost predicate Tells(s: State) {
    && (forall k, a :: Has(s, k, a) && k in s.contexts ==>
          if s.heap[a].finished then Past(s.contexts[k].life) else Uses(s.contexts[k].life, a))
    && forall k, a :: k in s.contexts && Uses(s.contexts[k].life, a) ==> Has(s, k, a)
  }

  lemma TasksKeep(s: State, t: State)
    requires Tasks(s) && SameTasks(s, t) && Tells(t)
    ensures Tasks(t)
  {
    forall k | k in t.contexts && !t.contexts[k].life.First? && k !in t.joined ensures exists a :: Has(t, k, a) {
      var a :| Has(s, k, a);
      assert Has(t, k, a);
    }
  }

  lemma WaitedKeep(s: State, t: State)
    requires Waited(s) && SameOwners(s, t) && SameTasks(s, t)
    ensures Waited(t)
  {
    forall k, a | Has(t, k, a) && k in t.joined ensures exists d :: Owned(t, d, a) && t.contexts[d].pc == Freeing(a) {
      assert Has(s, k, a);
      var d :| Owned(s, d, a) && s.contexts[d].pc == Freeing(a);
      assert Owned(t, d, a);
    }
    forall d, a | Owned(t, d, a) && t.contexts[d].pc == Freeing(a) && a in t.heap && t.heap[a].task.Some?
      ensures t.heap[a].task.value in t.joined
    {
      assert Has(t, t.heap[a].task.value, a) && Owned(s, d, a);
      assert Has(s, t.heap[a].task.value, a);
    }
  }

  lemma MoveSame(s: State, t: State, c: nat)
    requires Moves(s, t, c)
    ensures SameOwners(s, t) && SameTasks(s, t)
  {
  }

  lemma MoveTells(s: State, t: State, c: nat)
    requires Moves(s, t, c) && Tasks(s)
    ensures Tells(t)
  {
    MoveSame(s, t, c);
  }

  lemma MoveStarted(s: State, t: State, c: nat)
    requires Moves(s, t, c) && Started(s)
    ensures Started(t)
  {
    MoveSame(s, t, c);
  }

  lemma MoveLocked(s: State, t: State, c: nat)
    requires Moves(s, t, c) && Locked(s)
    ensures Locked(t)
  {
  }

  lemma MoveSane(s: State, t: State, c: nat)
    requires Moves(s, t, c) && Sane(s)
    ensures Sane(t) && t.heap == s.heap && t.head == s.head && t.list == s.list
  {
  }

  lemma MoveKeepsInv(s: State, t: State, c: nat)
    requires Inv(s) && Moves(s, t, c)
    ensures Inv(t)
  {
    MoveSame(s, t, c);
    MoveTells(s, t, c);
    MoveStarted(s, t, c);
    MoveLocked(s, t, c);
    MoveSane(s, t, c);
    OwnersKeep(s, t);
    TasksKeep(s, t);
    WaitedKeep(s, t);
  }

  /** A context marks its record. */
  ghost predicate Marks(s: State, t: State, c: nat, a: nat) {
    && c in s.contexts && s.contexts[c] == Context(Marking(a), Outside) && a in s.heap
    && t == s.(heap := s.heap[a := s.heap[a].(finished := true)],
        contexts := s.contexts[c := Context(Releasing, Outside)])
  }

  lemma MarkSame(s: State, t: State, c: nat, a: nat)
    requires Marks(s, t, c, a)
    ensures SameOwners(s, t) && SameTasks(s, t)
  {
  }

  lemma MarkTells(s: State, t: State, c: nat, a: nat)
    requires Marks(s, t, c, a) && Tasks(s)
    ensures Tells(t) && Has(s, c, a)
  {
    MarkSame(s, t, c, a);
    assert Has(s, c, a);
  }

  lemma MarkStarted(s: State, t: State, c: nat, a: nat)
    requires Marks(s, t, c, a) && Started(s) && Has(s, c, a)
    ensures Started(t)
  {
    MarkSame(s, t, c, a);
  }

  /** The list does not change where no link of it does. */
  lemma ChainKeeps(heap: map<nat, Record>, heap': map<nat, Record>, head: Option<nat>, list: seq<nat>)
    requires Chain(heap, head, list)
    requires forall a :: a in list ==> a in heap' && heap'[a].next == heap[a].next
    ensures Chain(heap', head, list)
  {
    forall i | 0 <= i < |list| ensures Tied(heap', list, i) { assert Tied(heap, list, i); }
  }

  lemma MarkLocked(s: State, t: State, c: nat, a: nat)
    requires Marks(s, t, c, a) && Locked(s) && Sane(s)
    ensures Locked(t) && Sane(t)
  {
  }

  lemma MarkChain(s: State, t: State, c: nat, a: nat)
    requires Marks(s, t, c, a) && Chain(s.heap, s.head, s.list)
    ensures Chain(t.heap, t.head, t.list)
  {
    ChainKeeps(s.heap, t.heap, s.head, s.list);
  }

  lemma MarkKeepsInv(s: State, t: State, c: nat, a: nat)
    requires Inv(s) && Marks(s, t, c, a)
    ensures Inv(t)
  {
    MarkSame(s, t, c, a);
    MarkTells(s, t, c, a);
    MarkStarted(s, t, c, a);
    MarkLocked(s, t, c, a);
    MarkChain(s, t, c, a);
    OwnersKeep(s, t);
    TasksKeep(s, t);
    WaitedKeep(s, t);
  }

  // --- unlinking ---

  function Removed(list: seq<nat>, i: nat): seq<nat>
    requires i < |list|
  {
    list[..i] + list[i + 1..]
  }

  lemma RemovedCons(list: seq<nat>, i: nat)
    requires 0 < i < |list|
    ensures Removed(list, i) == [list[0]] + Removed(list[1..], i - 1)
  {
    var r := Removed(list[1..], i - 1);
    assert |r| == |list| - 2 && forall j :: 0 <= j < |r| ==> r[j] == list[if j < i - 1 then j + 1 else j + 2];
  }

  lemma {:induction false} WithoutRemoves(list: seq<nat>, i: nat)
    requires Distinct(list) && i < |list|
    ensures Without(list, list[i]) == Removed(list, i)
  {
    if i == 0 {
      WithoutNothing(list[1..], list[0]);
    } else {
      WithoutRemoves(list[1..], i - 1);
      RemovedCons(list, i);
    }
  }

  lemma {:induction false} WithoutNothing(list: seq<nat>, a: nat)
    requires a !in list
    ensures Without(list, a) == list
  {
    if list != [] { WithoutNothing(list[1..], a); }
  }

  /** The link before a record is set to the link behind it. */
  function Relinked(s: State, i: nat): State
    requires i < |s.list|
  {
    var next := At(s.heap, s.list[i]).next;
    if i == 0 then s.(head := next, list := Removed(s.list, i))
    else
      var b := s.list[i - 1];
      s.(heap := s.heap[b := At(s.heap, b).(next := next)], list := Removed(s.list, i))
  }

  lemma RemovedDistinct(list: seq<nat>, i: nat)
    requires Distinct(list) && i < |list|
    ensures Distinct(Removed(list, i))
    ensures forall j :: 0 <= j < |list| - 1 ==> Removed(list, i)[j] == list[if j < i then j else j + 1]
  {
  }

  /** What follows an entry that stays. */
  lemma FollowingRemoved(list: seq<nat>, i: nat, j: nat)
    requires i < |list| && j < |list| - 1
    ensures var r, k := Removed(list, i), if j < i then j else j + 1;
      r[j] == list[k] && Following(r, j) == Following(list, if k + 1 == i then i else k)
  {
    var r := Removed(list, i);
    if j + 1 < |r| { assert r[j + 1] == list[if j + 1 < i then j + 1 else j + 2]; }
  }

  lemma RelinkedLink(s: State, i: nat, j: nat)
    requires Chain(s.heap, s.head, s.list) && i < |s.list| && j < |s.list| - 1
    ensures var t := Relinked(s, i); Tied(t.heap, t.list, j)
  {
    FollowingRemoved(s.list, i, j);
    var k := if j < i then j else j + 1;
    assert Tied(s.heap, s.list, k) && Tied(s.heap, s.list, i);
    if i > 0 && k != i - 1 { assert s.list[k] != s.list[i - 1]; }
  }

  lemma RelinkedChain(s: State, i: nat)
    requires Chain(s.heap, s.head, s.list) && i < |s.list|
    ensures var t := Relinked(s, i); Chain(t.heap, t.head, t.list)
  {
    var t := Relinked(s, i);
    RemovedDistinct(s.list, i);
    forall j | 0 <= j < |t.list| ensures Tied(t.heap, t.list, j) { RelinkedLink(s, i, j); }
    assert Tied(s.heap, s.list, i);
    forall a | a in t.list ensures a in t.heap { RemovedMembers(s.list, i, a); }
  }

  lemma RemovedMembers(list: seq<nat>, i: nat, a: nat)
    requires Distinct(list) && i < |list|
    ensures a in Removed(list, i) <==> a in list && a != list[i]
  {
    if a in list && a != list[i] {
      var j :| 0 <= j < |list| && list[j] == a;
      assert Removed(list, i)[if j < i then j else j - 1] == a;
    }
  }

  ghost predicate Unlinks(s: State, t: State, c: nat, i: nat) {
    && c in s.contexts && s.contexts[c].pc.Walking? && i < |s.list| && Chain(s.heap, s.head, s.list)
    && s.heap[s.list[i]].finished && s.heap[s.list[i]].task.Some?
    && t == Go(Relinked(s, i), c, Taken(s.list[i]))
  }

  /** Apart from the links: a record has left the list, and a context has it to itself. */
  ghost predicate Detaches(s: State, t: State, c: nat, x: nat) {
    && c in s.contexts && s.contexts[c].pc.Walking? && x in s.heap && x in s.list && s.heap[x].finished &&
        s.heap[x].task.Some?
    && t.contexts == s.contexts[c := s.contexts[c].(pc := Taken(x))] && t.joined == s.joined && t.holder == s.holder
    && t.heap.Keys == s.heap.Keys
    && (forall a :: a in s.heap ==> t.heap[a].task == s.heap[a].task && t.heap[a].finished == s.heap[a].finished)
    && (forall a :: a in t.list <==> a in s.list && a != x)
  }

  lemma UnlinkDetaches(s: State, t: State, c: nat, i: nat)
    requires Unlinks(s, t, c, i)
    ensures Detaches(s, t, c, s.list[i])
  {
    forall a ensures a in t.list <==> a in s.list && a != s.list[i] { RemovedMembers(s.list, i, a); }
  }

  lemma DetachSame(s: State, t: State, c: nat, x: nat)
    requires Detaches(s, t, c, x)
    ensures forall d, a :: Owned(t, d, a) <==> Owned(s, d, a) || (d == c && a == x)
    ensures SameTasks(s, t)
  {
  }

  lemma DetachOwners(s: State, t: State, c: nat, x: nat)
    requires Detaches(s, t, c, x) && OneOwner(s)
    ensures OneOwner(t)
  {
    DetachSame(s, t, c, x);
    forall a | a in t.heap && a !in t.list ensures exists d :: Owned(t, d, a) {
      if a == x {
        assert Owned(t, c, a);
      } else {
        var d :| Owned(s, d, a);
        assert Owned(t, d, a);
      }
    }
  }

  lemma DetachTells(s: State, t: State, c: nat, x: nat)
    requires Detaches(s, t, c, x) && Tasks(s)
    ensures Tells(t)
  {
    DetachSame(s, t, c, x);
  }

  lemma DetachStarted(s: State, t: State, c: nat, x: nat)
    requires Detaches(s, t, c, x) && Started(s)
    ensures Started(t)
  {
    DetachSame(s, t, c, x);
  }

  lemma DetachWaited(s: State, t: State, c: nat, x: nat)
    requires Detaches(s, t, c, x) && Waited(s)
    ensures Waited(t)
  {
    DetachSame(s, t, c, x);
    forall k, a | Has(t, k, a) && k in t.joined ensures exists d :: Owned(t, d, a) && t.contexts[d].pc == Freeing(a) {
      assert Has(s, k, a);
      var d :| Owned(s, d, a) && s.contexts[d].pc == Freeing(a);
      assert Owned(t, d, a);
    }
  }

  lemma DetachLocked(s: State, t: State, c: nat, x: nat)
    requires Detaches(s, t, c, x) && Locked(s) && Sane(s)
    ensures Locked(t) && Sane(t)
  {
    assert forall d :: d in t.contexts && d != c ==> !UnderLock(s.contexts[d].pc);
  }

  lemma UnlinkKeepsInv(s: State, t: State, c: nat, i: nat)
    requires Inv(s) && Unlinks(s, t, c, i)
    ensures Inv(t)
  {
    var x := s.list[i];
    RelinkedChain(s, i);
    UnlinkDetaches(s, t, c, i);
    DetachSame(s, t, c, x);
    DetachOwners(s, t, c, x);
    DetachTells(s, t, c, x);
    TasksKeep(s, t);
    DetachStarted(s, t, c, x);
    DetachWaited(s, t, c, x);
    DetachLocked(s, t, c, x);
  }

  // --- waiting ---

  ghost predicate Joins(s: State, t: State, c: nat, x: nat, k: nat) {
    && c in s.contexts && s.contexts[c].pc == Joining(x) && Has(s, k, x) && HasEnded(s, Some(k))
    && t == Go(s.(joined := s.joined + [k]), c, Freeing(x))
  }

  /** No one has waited for it yet. */
  lemma JoinIsNew(s: State, c: nat, x: nat, k: nat)
    requires OneOwner(s) && Waited(s) && c in s.contexts && s.contexts[c].pc == Joining(x) && Has(s, k, x)
    ensures k !in s.joined
  {
    assert Owned(s, c, x);
  }

  lemma JoinOwners(s: State, t: State, c: nat, x: nat, k: nat)
    requires Joins(s, t, c, x, k) && OneOwner(s)
    ensures OneOwner(t) && forall d, a :: Owned(t, d, a) <==> Owned(s, d, a)
  {
    forall d, a ensures Owned(t, d, a) <==> Owned(s, d, a) {}
    forall a | a in t.heap && a !in t.list ensures exists d :: Owned(t, d, a) {
      var d :| Owned(s, d, a);
      assert Owned(t, d, a);
    }
  }

  lemma JoinTasks(s: State, t: State, c: nat, x: nat, k: nat)
    requires Joins(s, t, c, x, k) && Tasks(s)
    ensures Tasks(t)
  {
    forall j, a ensures Has(t, j, a) <==> Has(s, j, a) {}
    forall j | j in t.contexts && !t.contexts[j].life.First? && j !in t.joined ensures exists a :: Has(t, j, a) {
      assert j !in s.joined;
      var a :| Has(s, j, a);
      assert Has(t, j, a);
    }
  }

  lemma JoinStarted(s: State, t: State, c: nat, x: nat, k: nat)
    requires Joins(s, t, c, x, k) && Started(s)
    ensures Started(t)
  {
    forall d, a ensures Owned(t, d, a) <==> Owned(s, d, a) {}
  }

  lemma JoinWaited(s: State, t: State, c: nat, x: nat, k: nat)
    requires Joins(s, t, c, x, k) && Waited(s) && Tasks(s) && k !in s.joined
    ensures Waited(t)
  {
    forall d, a ensures Owned(t, d, a) <==> Owned(s, d, a) {}
    forall j, a ensures Has(t, j, a) <==> Has(s, j, a) {}
    forall j, a | Has(t, j, a) && j in t.joined ensures exists d :: Owned(t, d, a) && t.contexts[d].pc == Freeing(a) {
      if j == k {
        assert a == x;
        assert Owned(t, c, x);
      } else {
        assert j in s.joined;
        var d :| Owned(s, d, a) && s.contexts[d].pc == Freeing(a);
        assert Owned(t, d, a);
      }
    }
  }

  lemma JoinLocked(s: State, t: State, c: nat, x: nat, k: nat)
    requires Joins(s, t, c, x, k) && Locked(s) && Sane(s)
    ensures Locked(t) && Sane(t)
  {
  }

  lemma JoinKeepsInv(s: State, t: State, c: nat, x: nat, k: nat)
    requires Inv(s) && Joins(s, t, c, x, k)
    ensures Inv(t)
  {
    JoinIsNew(s, c, x, k);
    JoinOwners(s, t, c, x, k);
    JoinTasks(s, t, c, x, k);
    JoinStarted(s, t, c, x, k);
    JoinWaited(s, t, c, x, k);
    JoinLocked(s, t, c, x, k);
  }

  // --- freeing ---

  ghost predicate Frees(s: State, t: State, c: nat, x: nat) {
    && c in s.contexts && x in s.heap
    && (s.contexts[c].pc == Freeing(x) || s.contexts[c].pc == Discarding(x))
    && t == Go(s.(heap := s.heap - {x}), c, if s.contexts[c].pc.Freeing? then Entering else Outside)
  }

  lemma FreeSame(s: State, t: State, c: nat, x: nat)
    requires Frees(s, t, c, x) && OneOwner(s)
    ensures forall d, a :: Owned(t, d, a) <==> Owned(s, d, a) && a != x
    ensures forall k, a :: Has(t, k, a) <==> Has(s, k, a) && a != x
    ensures x !in s.list
  {
    assert Owned(s, c, x);
    forall d, a ensures Owned(t, d, a) <==> Owned(s, d, a) && a != x {
      assert Owned(s, d, x) ==> d == c;
    }
  }

  lemma FreeOwners(s: State, t: State, c: nat, x: nat)
    requires Frees(s, t, c, x) && OneOwner(s)
    ensures OneOwner(t)
  {
    FreeSame(s, t, c, x);
    forall a | a in t.heap && a !in t.list ensures exists d :: Owned(t, d, a) {
      var d :| Owned(s, d, a);
      assert Owned(t, d, a);
    }
  }

  lemma FreeTasks(s: State, t: State, c: nat, x: nat)
    requires Frees(s, t, c, x) && OneOwner(s) && Started(s) && Waited(s) && Tasks(s)
    ensures Tasks(t)
  {
    FreeSame(s, t, c, x);
    forall k ensures Has(s, k, x) ==> k in s.joined { FreedIsWaitedFor(s, t, c, x, k); }
    TasksWithout(s, t, x);
  }

  lemma FreedIsWaitedFor(s: State, t: State, c: nat, x: nat, k: nat)
    requires Frees(s, t, c, x) && Started(s) && Waited(s)
    ensures Has(s, k, x) ==> k in s.joined
  {
    assert Owned(s, c, x);
  }

  lemma TasksWithout(s: State, t: State, x: nat)
    requires Tasks(s) && forall k, a :: Has(t, k, a) <==> Has(s, k, a) && a != x
    requires forall k :: Has(s, k, x) ==> k in s.joined && k in s.contexts && s.contexts[k].life == Ended
    requires t.joined == s.joined && t.contexts.Keys == s.contexts.Keys
    requires forall k :: k in s.contexts ==> t.contexts[k].life == s.contexts[k].life
    requires forall a :: a in t.heap ==> a in s.heap && t.heap[a] == s.heap[a]
    ensures Tasks(t)
  {
    forall k | k in t.contexts && !t.contexts[k].life.First? && k !in t.joined ensures exists a :: Has(t, k, a) {
      var a :| Has(s, k, a);
      assert Has(t, k, a);
    }
    forall k, a | k in t.contexts && Uses(t.contexts[k].life, a) ensures Has(t, k, a) {
      assert Has(s, k, a);
    }
  }

  lemma FreeStarted(s: State, t: State, c: nat, x: nat)
    requires Frees(s, t, c, x) && OneOwner(s) && Started(s)
    ensures Started(t)
  {
    FreeSame(s, t, c, x);
  }

  lemma FreeWaited(s: State, t: State, c: nat, x: nat)
    requires Frees(s, t, c, x) && OneOwner(s) && Waited(s)
    ensures Waited(t)
  {
    FreeSame(s, t, c, x);
    forall k, a | Has(t, k, a) && k in t.joined ensures exists d :: Owned(t, d, a) && t.contexts[d].pc == Freeing(a) {
      assert Has(s, k, a);
      var d :| Owned(s, d, a) && s.contexts[d].pc == Freeing(a);
      assert Owned(t, d, a);
    }
  }

  lemma FreeLocked(s: State, t: State, c: nat, x: nat)
    requires Frees(s, t, c, x) && Locked(s) && Sane(s)
    ensures Locked(t) && Sane(t)
  {
  }

  lemma FreeKeepsInv(s: State, t: State, c: nat, x: nat)
    requires Inv(s) && Frees(s, t, c, x)
    ensures Inv(t)
  {
    FreeSame(s, t, c, x);
    FreeOwners(s, t, c, x);
    FreeTasks(s, t, c, x);
    FreeStarted(s, t, c, x);
    FreeWaited(s, t, c, x);
    FreeLocked(s, t, c, x);
    ChainKeeps(s.heap, t.heap, s.head, s.list);
  }

  // --- making a record ---

  ghost predicate Allocates(s: State, t: State, c: nat, x: nat) {
    && c in s.contexts && s.contexts[c].pc == Allocating && x !in s.heap
    && t == Go(s.(heap := s.heap[x := Record(None, false, None)]), c, Numbering(x))
  }

  lemma AllocateSame(s: State, t: State, c: nat, x: nat)
    requires Allocates(s, t, c, x)
    ensures forall d, a :: Owned(t, d, a) <==> Owned(s, d, a) || (d == c && a == x)
    ensures forall k, a :: Has(t, k, a) <==> Has(s, k, a)
  {
  }

  lemma AllocateOwners(s: State, t: State, c: nat, x: nat)
    requires Allocates(s, t, c, x) && OneOwner(s) && x !in s.list
    ensures OneOwner(t)
  {
    AllocateSame(s, t, c, x);
    forall a | a in t.heap && a !in t.list ensures exists d :: Owned(t, d, a) {
      if a == x {
        assert Owned(t, c, a);
      } else {
        var d :| Owned(s, d, a);
        assert Owned(t, d, a);
      }
    }
  }

  lemma AllocateTasks(s: State, t: State, c: nat, x: nat)
    requires Allocates(s, t, c, x) && Tasks(s)
    ensures Tasks(t)
  {
    AllocateSame(s, t, c, x);
    forall k | k in t.contexts && !t.contexts[k].life.First? && k !in t.joined ensures exists a :: Has(t, k, a) {
      var a :| Has(s, k, a);
      assert Has(t, k, a);
    }
    forall k, a | Has(t, k, a)
      ensures k in t.contexts && if t.heap[a].finished then Past(t.contexts[k].life) else Uses(t.contexts[k].life, a)
    {
      assert Has(s, k, a);
    }
  }

  lemma AllocateStarted(s: State, t: State, c: nat, x: nat)
    requires Allocates(s, t, c, x) && Started(s) && OneOwner(s) && x !in s.list
    ensures Started(t)
  {
    AllocateSame(s, t, c, x);
  }

  lemma AllocateWaited(s: State, t: State, c: nat, x: nat)
    requires Allocates(s, t, c, x) && Waited(s)
    ensures Waited(t)
  {
    AllocateSame(s, t, c, x);
    forall k, a | Has(t, k, a) && k in t.joined ensures exists d :: Owned(t, d, a) && t.contexts[d].pc == Freeing(a) {
      assert Has(s, k, a);
      var d :| Owned(s, d, a) && s.contexts[d].pc == Freeing(a);
      assert Owned(t, d, a);
    }
  }

  lemma AllocateLocked(s: State, t: State, c: nat, x: nat)
    requires Allocates(s, t, c, x) && Locked(s) && Sane(s)
    ensures Locked(t) && Sane(t)
  {
  }

  lemma AllocateKeepsInv(s: State, t: State, c: nat, x: nat)
    requires Inv(s) && Allocates(s, t, c, x)
    ensures Inv(t)
  {
    assert x !in s.list;
    AllocateOwners(s, t, c, x);
    AllocateTasks(s, t, c, x);
    AllocateStarted(s, t, c, x);
    AllocateWaited(s, t, c, x);
    AllocateLocked(s, t, c, x);
    ChainKeeps(s.heap, t.heap, s.head, s.list);
  }

  // --- starting a context ---

  ghost predicate Starts(s: State, t: State, c: nat, x: nat, k: nat) {
    && c in s.contexts && s.contexts[c].pc == Starting(x) && x in s.heap && k !in s.contexts
    && !s.heap[x].finished && s.heap[x].task == None
    && t == s.(heap := s.heap[x := s.heap[x].(task := Some(k))],
               contexts := s.contexts[c := s.contexts[c].(pc := Pushing(x))][k := Context(Running(x), Outside)])
  }

  lemma StartSame(s: State, t: State, c: nat, x: nat, k: nat)
    requires Starts(s, t, c, x, k)
    ensures forall d, a :: Owned(t, d, a) <==> Owned(s, d, a)
    ensures forall j, a :: Has(t, j, a) <==> Has(s, j, a) || (j == k && a == x)
  {
    forall d, a ensures Owned(t, d, a) <==> Owned(s, d, a) {}
    forall j, a ensures Has(t, j, a) <==> Has(s, j, a) || (j == k && a == x) {}
  }

  lemma StartOwners(s: State, t: State, c: nat, x: nat, k: nat)
    requires Starts(s, t, c, x, k) && OneOwner(s)
    ensures OneOwner(t)
  {
    StartSame(s, t, c, x, k);
    forall a | a in t.heap && a !in t.list ensures exists d :: Owned(t, d, a) {
      var d :| Owned(s, d, a);
      assert Owned(t, d, a);
    }
  }

  lemma StartTasks(s: State, t: State, c: nat, x: nat, k: nat)
    requires Starts(s, t, c, x, k) && Tasks(s)
    ensures Tasks(t)
  {
    StartSame(s, t, c, x, k);
    forall j | j in t.contexts && !t.contexts[j].life.First? && j !in t.joined ensures exists a :: Has(t, j, a) {
      if j == k {
        assert Has(t, k, x);
      } else {
        var a :| Has(s, j, a);
        assert Has(t, j, a);
      }
    }
    forall j, a | Has(t, j, a)
      ensures j in t.contexts && if t.heap[a].finished then Past(t.contexts[j].life) else Uses(t.contexts[j].life, a)
    {
      if j != k { assert Has(s, j, a); }
    }
  }

  lemma StartStarted(s: State, t: State, c: nat, x: nat, k: nat)
    requires Starts(s, t, c, x, k) && Started(s) && OneOwner(s)
    ensures Started(t)
  {
    StartSame(s, t, c, x, k);
    assert Owned(s, c, x);
  }

  lemma StartWaited(s: State, t: State, c: nat, x: nat, k: nat)
    requires Starts(s, t, c, x, k) && Waited(s) && OneOwner(s)
    ensures Waited(t)
  {
    StartSame(s, t, c, x, k);
    assert Owned(s, c, x);
    forall j, a | Has(t, j, a) && j in t.joined ensures exists d :: Owned(t, d, a) && t.contexts[d].pc == Freeing(a) {
      assert Has(s, j, a);
      var d :| Owned(s, d, a) && s.contexts[d].pc == Freeing(a);
      assert Owned(t, d, a);
    }
  }

  lemma StartLocked(s: State, t: State, c: nat, x: nat, k: nat)
    requires Starts(s, t, c, x, k) && Locked(s) && Sane(s)
    ensures Locked(t) && Sane(t)
  {
  }

  lemma StartKeepsInv(s: State, t: State, c: nat, x: nat, k: nat)
    requires Inv(s) && Starts(s, t, c, x, k)
    ensures Inv(t)
  {
    StartOwners(s, t, c, x, k);
    StartTasks(s, t, c, x, k);
    StartStarted(s, t, c, x, k);
    StartWaited(s, t, c, x, k);
    StartLocked(s, t, c, x, k);
    ChainKeeps(s.heap, t.heap, s.head, s.list);
  }

  // --- putting the record on the list ---

  ghost predicate Links(s: State, t: State, c: nat, x: nat) {
    && c in s.contexts && s.contexts[c].pc == Linking(x) && x in s.heap && x !in s.list && s.heap[x].task.Some?
    && t == Go(s.(heap := s.heap[x := s.heap[x].(next := s.head)], head := Some(x), list := [x] + s.list), c, Linked(x))
  }

  lemma LinkSame(s: State, t: State, c: nat, x: nat)
    requires Links(s, t, c, x) && OneOwner(s)
    ensures forall d, a :: Owned(t, d, a) <==> Owned(s, d, a) && a != x
    ensures SameTasks(s, t)
  {
    assert Owned(s, c, x);
    forall d, a ensures Owned(t, d, a) <==> Owned(s, d, a) && a != x {
      assert Owned(s, d, x) ==> d == c;
    }
  }

  lemma LinkOwners(s: State, t: State, c: nat, x: nat)
    requires Links(s, t, c, x) && OneOwner(s)
    ensures OneOwner(t)
  {
    LinkSame(s, t, c, x);
    forall a | a in t.heap && a !in t.list ensures exists d :: Owned(t, d, a) {
      assert a != x && a !in s.list;
      var d :| Owned(s, d, a);
      assert Owned(t, d, a);
    }
  }

  lemma LinkTells(s: State, t: State, c: nat, x: nat)
    requires Links(s, t, c, x) && OneOwner(s) && Tasks(s)
    ensures Tells(t)
  {
    LinkSame(s, t, c, x);
  }

  lemma LinkStarted(s: State, t: State, c: nat, x: nat)
    requires Links(s, t, c, x) && OneOwner(s) && Started(s)
    ensures Started(t)
  {
    LinkSame(s, t, c, x);
  }

  lemma LinkWaited(s: State, t: State, c: nat, x: nat)
    requires Links(s, t, c, x) && OneOwner(s) && Waited(s)
    ensures Waited(t)
  {
    LinkSame(s, t, c, x);
    assert Owned(s, c, x);
    forall k, a | Has(t, k, a) && k in t.joined ensures exists d :: Owned(t, d, a) && t.contexts[d].pc == Freeing(a) {
      assert Has(s, k, a);
      var d :| Owned(s, d, a) && s.contexts[d].pc == Freeing(a);
      assert Owned(t, d, a);
    }
  }

  lemma LinkLocked(s: State, t: State, c: nat, x: nat)
    requires Links(s, t, c, x) && Locked(s) && Sane(s)
    ensures Locked(t) && Sane(t)
  {
    assert forall d :: d in t.contexts && d != c ==> !UnderLock(s.contexts[d].pc);
  }

  lemma LinkChain(s: State, t: State, c: nat, x: nat)
    requires Links(s, t, c, x) && Chain(s.heap, s.head, s.list)
    ensures Chain(t.heap, t.head, t.list)
  {
    forall i | 0 <= i < |t.list| ensures Tied(t.heap, t.list, i) {
      if i > 0 {
        assert Tied(s.heap, s.list, i - 1);
        assert t.list[i] == s.list[i - 1];
      }
    }
  }

  lemma LinkKeepsInv(s: State, t: State, c: nat, x: nat)
    requires Inv(s) && Links(s, t, c, x)
    ensures Inv(t)
  {
    LinkSame(s, t, c, x);
    LinkChain(s, t, c, x);
    LinkOwners(s, t, c, x);
    LinkTells(s, t, c, x);
    TasksKeep(s, t);
    LinkStarted(s, t, c, x);
    LinkWaited(s, t, c, x);
    LinkLocked(s, t, c, x);
  }

  // --- every step ---

  /** The place a walk is at names the entry of the list with this number, or the end. */
  ghost predicate Stands(s: State, p: Place, i: nat) {
    && i <= |s.list|
    && (if i == 0 then p == Head else p == Next(s.list[i - 1]))
  }

  lemma StandsSomewhere(s: State, c: nat) returns (i: nat)
    requires Sane(s) && c in s.contexts && s.contexts[c].pc.Walking?
    ensures Stands(s, s.contexts[c].pc.p, i)
  {
    var p := s.contexts[c].pc.p;
    if p == Head {
      i := 0;
    } else {
      var j :| 0 <= j < |s.list| && s.list[j] == p.a;
      i := j + 1;
    }
  }

  lemma StandsLoads(s: State, p: Place, i: nat)
    requires Chain(s.heap, s.head, s.list) && Stands(s, p, i)
    ensures Load(s, p) == if i < |s.list| then Some(s.list[i]) else None
  {
    if i > 0 { assert Tied(s.heap, s.list, i - 1); }
  }

  lemma LookPasses(s: State, c: nat, i: nat)
    requires Chain(s.heap, s.head, s.list) && Locked(s) && Sane(s)
    requires c in s.contexts && s.contexts[c].pc.Walking? && Stands(s, s.contexts[c].pc.p, i)
    requires i < |s.list| ==> !s.heap[s.list[i]].finished
    ensures Moves(s, Look(s, c, s.contexts[c].pc.p), c)
  {
    StandsLoads(s, s.contexts[c].pc.p, i);
  }

  lemma LookUnlinks(s: State, c: nat, i: nat)
    requires Chain(s.heap, s.head, s.list) && Started(s)
    requires c in s.contexts && s.contexts[c].pc.Walking? && Stands(s, s.contexts[c].pc.p, i)
    requires i < |s.list| && s.heap[s.list[i]].finished
    ensures Unlinks(s, Look(s, c, s.contexts[c].pc.p), c, i)
  {
    StandsLoads(s, s.contexts[c].pc.p, i);
    WithoutRemoves(s.list, i);
  }

  lemma LookKeepsInv(s: State, c: nat)
    requires Inv(s) && c in s.contexts && s.contexts[c].pc.Walking?
    ensures Inv(Look(s, c, s.contexts[c].pc.p))
  {
    var t := Look(s, c, s.contexts[c].pc.p);
    var i := StandsSomewhere(s, c);
    if i == |s.list| || !s.heap[s.list[i]].finished {
      LookPasses(s, c, i);
      MoveKeepsInv(s, t, c);
    } else {
      LookUnlinks(s, c, i);
      UnlinkKeepsInv(s, t, c, i);
    }
  }

  lemma EndingKeepsInv(s: State, c: nat)
    requires Inv(s) && c in s.contexts && s.contexts[c].pc.Outside?
    ensures Inv(Ending(s, c))
  {
    var t := Ending(s, c);
    match s.contexts[c].life
    case Marking(a) =>
      assert Has(s, c, a);
      MarkKeepsInv(s, t, c, a);
    case Clearing(a) =>
      EndingMoves(s, c);
      MoveKeepsInv(s, t, c);
    case Releasing =>
      EndingMoves(s, c);
      MoveKeepsInv(s, t, c);
    case _ =>
  }

  lemma EndingMoves(s: State, c: nat)
    requires Locked(s) && c in s.contexts && s.contexts[c].pc.Outside?
    requires s.contexts[c].life.Clearing? || s.contexts[c].life.Releasing?
    ensures Moves(s, Ending(s, c), c)
  {
    assert s.holder != Some(c);
  }

  /** A record that a context has to itself is what the step says it is. */
  lemma OwnRecord(s: State, c: nat, x: nat)
    requires Inv(s) && c in s.contexts && Owns(s.contexts[c].pc, x)
    ensures x in s.heap && x !in s.list && (s.heap[x].task.None? <==> Unstarted(s.contexts[c].pc))
    ensures s.heap[x].task.None? ==> !s.heap[x].finished
  {
    assert Owned(s, c, x);
  }

  /** A step in `__clone` that changes nothing but the lock and where the context is. */
  predicate OnlyMoves(pc: Pc, got: Option<nat>) {
    || pc.Entering? || pc.Taken? || pc.Swept? || pc.Numbering? || pc.Numbered? || pc.Pushing? || pc.Linked? ||
        pc.Answering?
    || ((pc.Allocating? || pc.Starting?) && got == None)
  }

  /** Two places in `__clone` between which a context's record and its standing are the same. */
  ghost predicate SameHold(pc: Pc, pc': Pc) {
    && (forall a :: Owns(pc', a) <==> Owns(pc, a))
    && (Unstarted(pc') <==> Unstarted(pc)) && (Unlinked(pc') <==> Unlinked(pc))
    && !pc.Freeing? && !pc'.Freeing? && !pc'.Linked? && (pc'.Walking? ==> pc'.p == Head)
  }

  lemma GoMoves(s: State, c: nat, holder: Option<nat>, pc: Pc)
    requires c in s.contexts && SameHold(s.contexts[c].pc, pc)
    requires !s.contexts[c].life.First? && !s.contexts[c].life.Running? ==> pc.Outside?
    requires if UnderLock(pc) then holder == Some(c) && s.holder == None
             else holder == if s.holder == Some(c) then None else s.holder
    ensures Moves(s, Go(s.(holder := holder), c, pc), c)
  {
  }

  /** Where such a step leads. */
  function Along(pc: Pc): Pc
    requires OnlyMoves(pc, None)
  {
    match pc
    case Entering => Walking(Head)
    case Taken(t) => Joining(t)
    case Swept => Allocating
    case Allocating => Outside
    case Numbering(t) => Numbered(t)
    case Numbered(t) => Starting(t)
    case Starting(t) => Discarding(t)
    case Pushing(t) => Linking(t)
    case Linked(t) => Answering(t)
    case Answering(_) => Outside
  }

  lemma AlongHolds(pc: Pc)
    requires OnlyMoves(pc, None)
    ensures SameHold(pc, Along(pc)) && (UnderLock(Along(pc)) <==> NeedsLock(pc))
  {
  }

  /** The lock after such a step. */
  function LockAfter(s: State, c: nat, pc: Pc): Option<nat> {
    if UnderLock(pc) then Some(c) else if s.holder == Some(c) then None else s.holder
  }

  lemma CloningGoes(s: State, c: nat, got: Option<nat>)
    requires Locked(s) && Enabled(s, Run(c, got)) && OnlyMoves(s.contexts[c].pc, got)
    ensures var pc := Along(s.contexts[c].pc); Cloning(s, c, got) == Go(s.(holder := LockAfter(s, c, pc)), c, pc)
  {
    assert UnderLock(s.contexts[c].pc) <==> s.holder == Some(c);
  }

  lemma CloningMoves(s: State, c: nat, got: Option<nat>)
    requires Locked(s) && Sane(s) && Enabled(s, Run(c, got)) && OnlyMoves(s.contexts[c].pc, got)
    ensures Moves(s, Cloning(s, c, got), c)
  {
    var pc := Along(s.contexts[c].pc);
    CloningGoes(s, c, got);
    AlongHolds(s.contexts[c].pc);
    GoMoves(s, c, LockAfter(s, c, pc), pc);
  }

  lemma RecordStepKeepsInv(s: State, c: nat, got: Option<nat>, x: nat)
    requires Inv(s) && Enabled(s, Run(c, got)) && Owns(s.contexts[c].pc, x) && !OnlyMoves(s.contexts[c].pc, got)
    ensures Inv(Cloning(s, c, got))
  {
    OwnRecord(s, c, x);
    var t, pc := Cloning(s, c, got), s.contexts[c].pc;
    if pc.Joining? {
      JoinKeepsInv(s, t, c, x, s.heap[x].task.value);
    } else if pc.Freeing? || pc.Discarding? {
      FreeKeepsInv(s, t, c, x);
    } else if pc.Starting? {
      StartKeepsInv(s, t, c, x, got.value);
    } else {
      LinkKeepsInv(s, t, c, x);
    }
  }

  lemma CloningKeepsInv(s: State, c: nat, got: Option<nat>)
    requires Inv(s) && Enabled(s, Run(c, got)) && !s.contexts[c].pc.Outside?
    ensures Inv(Cloning(s, c, got))
  {
    var pc := s.contexts[c].pc;
    if OnlyMoves(pc, got) {
      CloningMoves(s, c, got);
      MoveKeepsInv(s, Cloning(s, c, got), c);
    } else if pc.Walking? {
      LookKeepsInv(s, c);
    } else if pc.Allocating? {
      AllocateKeepsInv(s, Cloning(s, c, got), c, got.value);
    } else {
      RecordStepKeepsInv(s, c, got, pc.t);
    }
  }

  /** A context begins to start another, or is done with what it was started for. */
  lemma CallMoves(s: State, e: Event)
    requires Locked(s) && Enabled(s, e) && !e.Run?
    ensures Moves(s, Apply(s, e), e.c)
  {
    assert s.holder != Some(e.c);
  }

  /** Every step of every context keeps what holds. */
  lemma StepKeepsInv(s: State, e: Event)
    requires Inv(s) && Enabled(s, e)
    ensures Inv(Apply(s, e))
  {
    match e
    case Call(c) =>
      CallMoves(s, e);
      MoveKeepsInv(s, Apply(s, e), c);
    case Return(c) =>
      CallMoves(s, e);
      MoveKeepsInv(s, Apply(s, e), c);
    case Run(c, got) =>
      if s.contexts[c].pc.Outside? { EndingKeepsInv(s, c); } else { CloningKeepsInv(s, c, got); }
  }
}
