/** How each tool output comes out of the budget, told by its length, its kind and whether writing works. */
module ToolResultOutcome {
  import opened PyCollections
  import opened ToolResultBudget
  import opened ToolResultBatches

  // ----- what does not matter ----------------------------------------------------------

  /** The first `n` writes fare the same, and so do outputs whose write is among them: the two may differ in
      previews if none of these works, in what is kept of an output if all do, and in all further writes. */
  ghost predicate SameUpTo(a: Env, b: Env, n: nat) {
    && a.threshold == b.threshold && a.budget == b.budget
    && forall k: nat :: k < n ==>
      a.works(k) == b.works(k) && (if a.works(k) then a.preview == b.preview else a.cut == b.cut)
  }

  ghost predicate AllWork(env: Env) { forall n: nat :: env.works(n) }

  lemma {:induction false} ShrinkCounts(items: seq<Item>, order: seq<Item>, env: Env, calls: nat)
    ensures ShrinkFrom(items, order, env, calls).1 >= calls
    decreases |order|
  {
    if order != [] && Total(items) > env.budget {
      var (content, used) := Replacement(order[0], env, calls);
      ShrinkCounts(ReplaceIn(items, order[0].event, content), order[1..], env, used);
    }
  }

  lemma FlushCounts(st: State, env: Env)
    requires Placed(st.result, st.batch)
    ensures Flush(st, env).calls >= st.calls
  {
    ShrinkCounts(st.batch, SortDesc(ByLength, st.batch), env, st.calls);
  }

  lemma {:induction false} SameShrinkFrom(items: seq<Item>, order: seq<Item>, a: Env, b: Env, calls: nat)
    requires SameUpTo(a, b, ShrinkFrom(items, order, a, calls).1)
    ensures ShrinkFrom(items, order, a, calls) == ShrinkFrom(items, order, b, calls)
    decreases |order|
  {
    if order != [] && Total(items) > a.budget {
      var (content, used) := Replacement(order[0], a, calls);
      var rest := ReplaceIn(items, order[0].event, content);
      ShrinkCounts(rest, order[1..], a, used);
      assert (content, used) == Replacement(order[0], b, calls);
      SameShrinkFrom(rest, order[1..], a, b, used);
    }
  }

  lemma SameFlush(st: State, a: Env, b: Env)
    requires Placed(st.result, st.batch) && SameUpTo(a, b, Flush(st, a).calls)
    ensures Flush(st, a) == Flush(st, b)
  {
    SameShrinkFrom(st.batch, SortDesc(ByLength, st.batch), a, b, st.calls);
  }

  lemma SameForOther(st: State, e: Event, a: Env, b: Env)
    requires Placed(st.result, st.batch) && SameUpTo(a, b, Step(st, e, a).calls) && e.kind == NotObservation
    ensures Step(st, e, a) == Step(st, e, b) && Step(st, e, a).calls >= st.calls
  {
    FlushCounts(st, a);
    SameFlush(st, a, b);
  }

  lemma SameForEmpty(st: State, e: Event, a: Env, b: Env)
    requires Placed(st.result, st.batch) && SameUpTo(a, b, Step(st, e, a).calls)
    requires e.kind != NotObservation && e.content == ""
    ensures Step(st, e, a) == Step(st, e, b) && Step(st, e, a).calls >= st.calls
  {
    FlushCounts(Beside(st, e), a);
    SameFlush(Beside(st, e), a, b);
  }

  lemma SameAtOnce(st: State, e: Event, a: Env, b: Env)
    requires Placed(st.result, st.batch) && SameUpTo(a, b, Step(st, e, a).calls)
    requires IsText(e) && StaysOut(st, e, a)
    ensures Step(st, e, a) == Step(st, e, b) && Step(st, e, a).calls >= st.calls
  {
    FlushCounts(Previewed(st, e, a), a);
    assert a.works(st.calls) == b.works(st.calls) && Previewed(st, e, a) == Previewed(st, e, b);
    SameFlush(Previewed(st, e, a), a, b);
  }

  lemma StepOfJoin(st: State, e: Event, env: Env)
    requires Placed(st.result, st.batch) && !StaysOut(st, e, env)
    ensures Placed(Grown(st, e, env).result, Grown(st, e, env).batch)
    ensures Step(st, e, env)
         == if Total(Grown(st, e, env).batch) > env.budget then Flush(Grown(st, e, env), env) else Grown(st, e, env)
  {
  }

  lemma SameJoin(st: State, e: Event, a: Env, b: Env)
    requires Placed(st.result, st.batch) && SameUpTo(a, b, Step(st, e, a).calls) && !StaysOut(st, e, a)
    ensures Step(st, e, a) == Step(st, e, b) && Step(st, e, a).calls >= st.calls
  {
    var grown := Grown(st, e, a);
    StepOfJoin(st, e, a);
    FlushCounts(grown, a);
    if Oversized(e, e.content, a.threshold) { assert a.works(st.calls) == b.works(st.calls); }
    StepOfJoin(st, e, b);
    if Total(grown.batch) > a.budget { SameFlush(grown, a, b); }
  }

  lemma SameStep(st: State, e: Event, a: Env, b: Env)
    requires Placed(st.result, st.batch) && SameUpTo(a, b, Step(st, e, a).calls)
    ensures Step(st, e, a) == Step(st, e, b) && Step(st, e, a).calls >= st.calls
  {
    if !StaysOut(st, e, a) {
      SameJoin(st, e, a, b);
    } else if e.kind == NotObservation {
      SameForOther(st, e, a, b);
    } else if e.content == "" {
      SameForEmpty(st, e, a, b);
    } else {
      SameAtOnce(st, e, a, b);
    }
  }

  lemma {:induction false} SameFold(events: seq<Event>, a: Env, b: Env)
    requires SameUpTo(a, b, Fold(events, a).calls)
    ensures Fold(events, a) == Fold(events, b)
  {
    if events != [] {
      var st, e := Fold(events[..|events| - 1], a), events[|events| - 1];
      SameStep(st, e, a, b);
      SameFold(events[..|events| - 1], a, b);
    }
  }

  /** The outcome depends on the writes that are made only, each of them decided for itself; on what a preview
      is only if one of them works, and on what is kept of an output only if one fails. */
  lemma OnlyWritesMadeMatter(events: seq<Event>, a: Env, b: Env)
    requires SameUpTo(a, b, Budgeted(events, a).calls)
    ensures Budgeted(events, a) == Budgeted(events, b)
  {
    FlushCounts(Fold(events, a), a);
    SameFold(events, a, b);
    SameFlush(Fold(events, a), a, b);
  }

  // ----- large outputs are in no batch -------------------------------------------------

  /** An output long enough to be written to disk as soon as it is met. */
  predicate Large(e: Event, threshold: int) { e.kind == Persistable && e.content != "" && |e.content| >= threshold }

  predicate NoneLarge(events: seq<Event>, flushed: seq<Span>, threshold: int) {
    forall p :: 0 <= p < |events| && Covered(flushed, p) ==> !Large(events[p], threshold)
  }

  predicate NoneLargeFrom(events: seq<Event>, base: nat, threshold: int) {
    forall p :: base <= p < |events| ==> !Large(events[p], threshold)
  }

  lemma CoveredSnoc(flushed: seq<Span>, s: Span, p: nat)
    ensures Covered(flushed + [s], p) <==> s.lo <= p < s.hi || Covered(flushed, p)
  {
    assert (flushed + [s])[..|flushed + [s]| - 1] == flushed;
  }

  lemma NoneLargeSnoc(events: seq<Event>, flushed: seq<Span>, s: Span, threshold: int)
    requires NoneLarge(events, flushed, threshold)
    requires forall p :: s.lo <= p < s.hi && p < |events| ==> !Large(events[p], threshold)
    ensures NoneLarge(events, flushed + [s], threshold)
  {
    forall p | 0 <= p < |events| && Covered(flushed + [s], p) ensures !Large(events[p], threshold) {
      CoveredSnoc(flushed, s, p);
    }
  }

  lemma NoneLargeInMore(events: seq<Event>, all: seq<Event>, flushed: seq<Span>, threshold: int)
    requires NoneLarge(events, flushed, threshold) && OneMore(events, all)
    requires forall p: nat :: Covered(flushed, p) ==> p < |events|
    ensures NoneLarge(all, flushed, threshold)
  {
  }

  lemma CoveredBefore(events: seq<Event>, st: State, env: Env)
    requires Inv(events, st, env)
    ensures forall p: nat :: Covered(st.flushed, p) ==> p < |events|
  {
    forall p: nat | Covered(st.flushed, p) ensures p < |events| {
      CoveredBelow(events, st.result, st.flushed, env, |events| - |st.batch|, p);
    }
  }

  /** What the step does to what is batched: nothing large joins while writing works. */
  lemma StepBatchesNoneLarge(events: seq<Event>, all: seq<Event>, st: State, e: Event, env: Env, base: nat,
                             after: State)
    requires Steps(all, st, env, base, after) && OneMore(events, all) && all[|events|] == e
    requires base + |st.batch| == |events| && NoneLarge(all, st.flushed, env.threshold)
    requires NoneLargeFrom(events, base, env.threshold)
    requires !Large(e, env.threshold) || Flushed(st, after, base)
    ensures NoneLarge(all, after.flushed, env.threshold)
    ensures |after.batch| <= |all| && NoneLargeFrom(all, |all| - |after.batch|, env.threshold)
  {
    if Flushed(st, after, base) {
      NoneLargeSnoc(all, st.flushed, Span(base, base + |st.batch|), env.threshold);
    } else if Overflown(all, st, env, base, after) {
      NoneLargeSnoc(all, st.flushed, Span(base, |all|), env.threshold);
    }
  }

  /** A large event that could be written leaves the batch as it is. */
  lemma LargeStaysOut(st: State, e: Event, env: Env, base: nat, after: State)
    requires Placed(st.result, st.batch) && after == Step(st, e, env) && env.works(st.calls) && Large(e, env.threshold)
    requires st.batch != [] ==> st.batch[0].idx == base
    ensures Flushed(st, after, base)
  {
    StaysOutCase(st, e, env, base, after);
  }

  lemma TidyStep(events: seq<Event>, all: seq<Event>, st: State, env: Env, after: State)
    requires Tidy(events, st) && OneMore(events, all) && after == Step(st, all[|events|], env)
    requires AllWork(env)
    ensures Steps(all, st, env, |events| - |st.batch|, after)
    ensures Large(all[|events|], env.threshold) ==> Flushed(st, after, |events| - |st.batch|)
  {
    var base := |events| - |st.batch|;
    HoldsInMore(events, all, st.batch, base);
    StepCases(all, st, all[|events|], env, base, after);
    if Large(all[|events|], env.threshold) { LargeStaysOut(st, all[|events|], env, base, after); }
  }

  predicate SmallSoFar(events: seq<Event>, st: State, threshold: int) {
    && |st.batch| <= |events| && NoneLarge(events, st.flushed, threshold)
    && NoneLargeFrom(events, |events| - |st.batch|, threshold)
  }

  lemma StepKeepsSmall(events: seq<Event>, all: seq<Event>, st: State, env: Env, after: State)
    requires Tidy(events, st) && OneMore(events, all) && after == Step(st, all[|events|], env)
    requires AllWork(env) && SmallSoFar(events, st, env.threshold)
    requires forall p: nat :: Covered(st.flushed, p) ==> p < |events|
    ensures SmallSoFar(all, after, env.threshold)
  {
    NoneLargeInMore(events, all, st.flushed, env.threshold);
    TidyStep(events, all, st, env, after);
    StepBatchesNoneLarge(events, all, st, all[|events|], env, |events| - |st.batch|, after);
  }

  lemma FoldIsBehind(heap: nat -> Event, events: seq<Event>, env: Env)
    requires Live(heap, events)
    ensures Tidy(events, Fold(events, env))
    ensures forall p: nat :: Covered(Fold(events, env).flushed, p) ==> p < |events|
  {
    FoldInv(heap, events, env);
    FoldIsTidy(heap, events, env);
    CoveredBefore(events, Fold(events, env), env);
  }

  lemma LiveFront(heap: nat -> Event, events: seq<Event>)
    requires Live(heap, events) && events != []
    ensures Live(heap, events[..|events| - 1])
  {
  }

  lemma {:induction false} FoldBatchesNoneLarge(heap: nat -> Event, events: seq<Event>, env: Env)
    requires Live(heap, events) && AllWork(env)
    ensures SmallSoFar(events, Fold(events, env), env.threshold)
  {
    if events != [] {
      var before := events[..|events| - 1];
      LiveFront(heap, events);
      FoldBatchesNoneLarge(heap, before, env);
      FoldIsBehind(heap, before, env);
      StepKeepsSmall(before, events, Fold(before, env), env, Fold(events, env));
    }
  }

  lemma BudgetBatchesNoneLarge(heap: nat -> Event, events: seq<Event>, env: Env)
    requires Live(heap, events) && AllWork(env)
    ensures NoneLarge(events, Budgeted(events, env).flushed, env.threshold)
  {
    var st, out := Fold(events, env), Budgeted(events, env);
    FoldBatchesNoneLarge(heap, events, env);
    FoldIsTidy(heap, events, env);
    EndFlushes(events, st, env, out);
    if st.batch != [] {
      NoneLargeSnoc(events, st.flushed, Span(|events| - |st.batch|, |events|), env.threshold);
    }
  }

  // ----- how an event comes out --------------------------------------------------------

  /** Only long outputs of the persistable kinds change: those of half the threshold or more. */
  lemma ShortStays(heap: nat -> Event, events: seq<Event>, env: Env, p: nat)
    requires Live(heap, events) && p < |events|
    requires events[p].kind != Persistable || |events[p].content| < env.threshold / 2
    ensures |Budgeted(events, env).result| == |events|
    ensures Budgeted(events, env).result[p].content == events[p].content
  {
    var out := Budgeted(events, env);
    BudgetSettlesEverything(heap, events, env);
    assert SettledAt(events, out.result, out.flushed, env, p);
    if Covered(out.flushed, p) { CoveredIsShrunk(events, out.result, out.flushed, env, |events|, p); }
  }

  /** While writing works a content changes to its preview only, and every output of the threshold or more
      is shown by its preview, in a batch or not. */
  lemma OutcomeWhenWritesWork(heap: nat -> Event, events: seq<Event>, env: Env, p: nat)
    requires Live(heap, events) && p < |events| && AllWork(env)
    ensures |Budgeted(events, env).result| == |events|
    ensures var e, r := events[p], Budgeted(events, env).result[p];
      && (r.content == e.content || r.content == env.preview(e, e.content))
      && (e.kind == Persistable && e.content != "" && |e.content| >= env.threshold ==>
            r == Event(e.ref, true, e.id, e.kind, env.preview(e, e.content)))
  {
    var out, kept := Budgeted(events, env), env.(cut := (s: string) => s);
    OnlyWritesMadeMatter(events, env, kept);
    BudgetKeepsShape(heap, events, kept);
    assert KeepsShape(events[p], out.result[p], kept);
    BudgetBatchesNoneLarge(heap, events, env);
    BudgetSettlesEverything(heap, events, env);
    assert SettledAt(events, out.result, out.flushed, env, p);
  }

  /** While none works no content is ever a preview: it stays, or is cut. */
  lemma OutcomeWhenWritesFail(heap: nat -> Event, events: seq<Event>, env: Env, p: nat)
    requires Live(heap, events) && p < |events| && forall n: nat :: !env.works(n)
    ensures |Budgeted(events, env).result| == |events|
    ensures var e, r := events[p], Budgeted(events, env).result[p];
      r.content == e.content || r.content == env.cut(e.content)
  {
    var out, kept := Budgeted(events, env), env.(preview := (e: Event, s: string) => s);
    OnlyWritesMadeMatter(events, env, kept);
    BudgetKeepsShape(heap, events, kept);
    assert KeepsShape(events[p], out.result[p], kept);
  }

  // ----- how a batch comes out ---------------------------------------------------------

  lemma {:induction false} BatchAt(events: seq<Event>, result: seq<Event>, flushed: seq<Span>, env: Env, n: nat, i: nat)
    requires Batches(events, result, flushed, env, n) && i < |flushed|
    ensures WellShrunk(events, result, flushed[i], env)
  {
    if i + 1 < |flushed| { BatchAt(events, result, flushed[..|flushed| - 1], env, Last(flushed).lo, i); }
  }

  /** A batch within the budget keeps its contents; one that is over it, and still is, has all outputs of
      half the threshold or more replaced. */
  lemma BatchOutcome(heap: nat -> Event, events: seq<Event>, env: Env, i: nat, p: nat)
    requires Live(heap, events) && i < |Budgeted(events, env).flushed|
    requires Budgeted(events, env).flushed[i].lo <= p < Budgeted(events, env).flushed[i].hi
    ensures var out := Budgeted(events, env);
      var s := out.flushed[i];
      && s.hi <= |events| == |out.result|
      && (CharsIn(events, s.lo, s.hi) <= env.budget ==> out.result[p].content == events[p].content)
      && (CharsIn(out.result, s.lo, s.hi) > env.budget && events[p].kind == Persistable
          && |events[p].content| >= env.threshold / 2 ==>
            || out.result[p].content == env.preview(events[p], events[p].content)
            || out.result[p].content == env.cut(events[p].content))
  {
    var out := Budgeted(events, env);
    BudgetSettlesEverything(heap, events, env);
    BatchAt(events, out.result, out.flushed, env, |events|, i);
    assert BigEvent(events[p], env) && CharsIn(out.result, out.flushed[i].lo, out.flushed[i].hi) > env.budget ==>
      Replaced(events[p], out.result[p], env);
  }

  /** While writing works those are replaced by their previews. */
  lemma OverfullBatchIsPreviewed(heap: nat -> Event, events: seq<Event>, env: Env, i: nat, p: nat)
    requires Live(heap, events) && i < |Budgeted(events, env).flushed| && AllWork(env)
    requires Budgeted(events, env).flushed[i].lo <= p < Budgeted(events, env).flushed[i].hi <= |events|
    requires events[p].kind == Persistable && |events[p].content| >= env.threshold / 2
    ensures var out := Budgeted(events, env);
      var s := out.flushed[i];
      && |out.result| == |events|
      && (CharsIn(out.result, s.lo, s.hi) > env.budget ==>
            out.result[p].content == env.preview(events[p], events[p].content))
  {
    var short, long := env.(cut := (s: string) => s + "x"), env.(cut := (s: string) => s + "xx");
    OnlyWritesMadeMatter(events, env, short);
    OnlyWritesMadeMatter(events, env, long);
    BatchOutcome(heap, events, short, i, p);
    BatchOutcome(heap, events, long, i, p);
  }
}
