/**
  What a context without an entry is answered: zero as long as no context has stored a thread pointer, and from then
  on the enquiry for one ends the program.
*/
module ContextAnswers {
  import opened Options
  import opened Contexts

  /** The step completes a call that stores a thread pointer. */
  predicate Completes(s: State, e: Event)
    requires Enabled(s, e.c)
  {
    && !s.contexts[e.c].pc.Returned?
    && var me := Step(s, e.c, e.op).contexts[e.c]; me.op.SetTp? && me.pc == Returned(Done)
  }

  /** Some step of a run does. */
  ghost predicate Completed(s: State, es: seq<Event>)
    requires Runs(s, es)
    decreases |es|
  {
    es != [] && (Completes(s, es[0]) || Completed(Step(s, es[0].c, es[0].op), es[1..]))
  }

  lemma StepRecords(s: State, e: Event)
    requires Knows(s, e.c) && Enabled(s, e.c)
    ensures Step(s, e.c, e.op).recorded <==> s.recorded || Completes(s, e)
  {
  }

  lemma {:induction false} RunRecords(s: State, es: seq<Event>)
    requires Inv(s) && Runs(s, es)
    ensures After(s, es).recorded <==> s.recorded || Completed(s, es)
    decreases |es|
  {
    if es != [] {
      StepRecords(s, es[0]);
      StepKeepsInv(s, es[0].c, es[0].op);
      RunRecords(Step(s, es[0].c, es[0].op), es[1..]);
    }
  }

  /** That something is recorded says exactly that a call that stores a thread pointer has been completed. */
  lemma {:induction false} RecordedExactly(s: State, es: seq<Event>)
    requires Initial(s) && Runs(s, es)
    ensures After(s, es).recorded <==> Completed(s, es)
  {
    InitialInv(s);
    RunRecords(s, es);
  }

  /** The step answers an enquiry for the thread pointer. */
  predicate AnswersTp(t: State, e: Event)
    requires Enabled(t, e.c)
  {
    && !t.contexts[e.c].pc.Returned? && t.contexts[e.c].op == GetTp
    && Step(t, e.c, e.op).contexts[e.c].pc.Returned?
  }

  function AnswerOf(t: State, e: Event): Outcome
    requires Enabled(t, e.c) && AnswersTp(t, e)
  {
    Step(t, e.c, e.op).contexts[e.c].pc.out
  }

  lemma StepAnswers(t: State, e: Event)
    requires Knows(t, e.c) && Enabled(t, e.c) && AnswersTp(t, e)
    ensures Absent(t.slots, e.c) <==> e.c !in t.records
    ensures e.c in t.records ==> AnswerOf(t, e) == Value(t.records[e.c].tp)
    ensures e.c !in t.records ==> AnswerOf(t, e) == if t.recorded then Aborted else Value(0)
  {
  }

  /** After any run: an enquiry aborts exactly when its context has no entry and a store had been completed by then;
      without an entry and before the first store it answers zero; with an entry, what was stored there. */
  lemma {:induction false} AbortsExactly(s: State, es: seq<Event>, e: Event)
    requires Initial(s) && Runs(s, es) && Enabled(After(s, es), e.c) && AnswersTp(After(s, es), e)
    ensures var t := After(s, es);
      && (AnswerOf(t, e) == Aborted <==> Absent(t.slots, e.c) && Completed(s, es))
      && (Absent(t.slots, e.c) && !Completed(s, es) ==> AnswerOf(t, e) == Value(0))
      && (!Absent(t.slots, e.c) ==> e.c in t.records && AnswerOf(t, e) == Value(t.records[e.c].tp))
  {
    ReachableInv(s, es);
    RecordedExactly(s, es);
    StepAnswers(After(s, es), e);
  }
}
