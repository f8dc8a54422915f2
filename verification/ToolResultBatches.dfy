/** Why the tool-result budget cuts its batches where it does: no batch is cut short. */
module ToolResultBatches {
  import opened ToolResultBudget

  predicate Overflows(events: seq<Event>, s: Span, env: Env) {
    s.hi <= |events| && CharsIn(events, s.lo, s.hi) > env.budget
  }

  /** The stretch was within the budget until its last observation came. */
  predicate FitsUntilLast(events: seq<Event>, s: Span, env: Env) {
    s.lo < s.hi <= |events| && (s.lo + 1 < s.hi ==> CharsIn(events, s.lo, s.hi - 1) <= env.budget)
  }

  /** No batch went on after overflowing, and one that another batch, or what starts at `next`, follows
      immediately did overflow. */
  predicate Tight(events: seq<Event>, flushed: seq<Span>, env: Env, next: nat) {
    flushed == []
    || (FitsUntilLast(events, Last(flushed), env)
        && (Last(flushed).hi == next ==> Overflows(events, Last(flushed), env))
        && Tight(events, flushed[..|flushed| - 1], env, Last(flushed).lo))
  }

  /** `all` is `events` with one event more. */
  predicate OneMore(events: seq<Event>, all: seq<Event>) {
    |all| == |events| + 1 && forall p :: 0 <= p < |events| ==> events[p] == all[p]
  }

  lemma {:induction false} TightStays(events: seq<Event>, all: seq<Event>, flushed: seq<Span>, env: Env, next: nat)
    requires Tight(events, flushed, env, next) && OneMore(events, all)
    ensures Tight(all, flushed, env, next)
  {
    if flushed != [] {
      var s := Last(flushed);
      CharsInSame(events, all, s.lo, s.hi);
      CharsInSame(events, all, s.lo, s.hi - 1);
      TightStays(events, all, flushed[..|flushed| - 1], env, s.lo);
    }
  }

  lemma TightLater(events: seq<Event>, flushed: seq<Span>, env: Env, next: nat, later: nat)
    requires Tight(events, flushed, env, next) && next < later && (flushed != [] ==> Last(flushed).hi <= next)
    ensures Tight(events, flushed, env, later)
  {
  }

  lemma TightMore(events: seq<Event>, flushed: seq<Span>, env: Env, s: Span, next: nat)
    requires Tight(events, flushed, env, s.lo) && FitsUntilLast(events, s, env)
    requires s.hi == next ==> Overflows(events, s, env)
    ensures Tight(events, flushed + [s], env, next)
  {
    assert (flushed + [s])[..|flushed + [s]| - 1] == flushed;
  }

  lemma HeldChars(events: seq<Event>, batch: seq<Item>, base: nat)
    requires Holds(batch, events, base)
    ensures CharsIn(events, base, base + |batch|) == Total(batch)
  {
    forall k | 0 <= k < |batch| ensures events[base + k].content == batch[k].content {
      assert batch[k] == Item(base + k, events[base + k], events[base + k].content);
    }
    CharsInTotal(events, base, batch);
  }

  lemma FewerChars(events: seq<Event>, lo: nat, hi: nat)
    requires lo < hi <= |events|
    ensures CharsIn(events, lo, hi - 1) <= CharsIn(events, lo, hi)
  {
  }

  /** What flushing does to the list of batches. */
  predicate Flushed(before: State, after: State, base: nat) {
    && after.batch == []
    && after.flushed == if before.batch == [] then before.flushed
                        else before.flushed + [Span(base, base + |before.batch|)]
  }

  /** What of the invariant of the pass matters here. */
  predicate Ordered(events: seq<Event>, st: State, base: nat) {
    && base + |st.batch| == |events| && Holds(st.batch, events, base)
    && (st.flushed != [] ==> Last(st.flushed).hi <= base)
  }

  /** Between two events: the batches behind are tight, and the current one has not overflowed. */
  predicate Unbroken(events: seq<Event>, st: State, env: Env, base: nat) {
    Tight(events, st.flushed, env, base) && (st.batch != [] ==> Total(st.batch) <= env.budget)
  }

  /** A batch within the budget is flushed before or behind an event that is in no batch. */
  lemma FlushFits(events: seq<Event>, st: State, env: Env, base: nat, after: State, next: nat)
    requires Ordered(events, st, base) && Unbroken(events, st, env, base) && Flushed(st, after, base) && |events| < next
    ensures Tight(events, after.flushed, env, next)
  {
    if st.batch == [] {
      TightLater(events, st.flushed, env, base, next);
    } else {
      HeldChars(events, st.batch, base);
      FewerChars(events, base, |events|);
      TightMore(events, st.flushed, env, Span(base, |events|), next);
    }
  }

  lemma OtherEventKeepsTight(events: seq<Event>, all: seq<Event>, st: State, env: Env, base: nat, after: State)
    requires Ordered(events, st, base) && Unbroken(events, st, env, base) && OneMore(events, all)
    requires Flushed(st, after, base)
    ensures Unbroken(all, after, env, |all|)
  {
    FlushFits(events, st, env, base, after, |all|);
    TightStays(events, all, after.flushed, env, |all|);
  }

  /** What joining the batch does, with `all` the events so far. */
  predicate Joined(all: seq<Event>, st: State, grown: State, base: nat) {
    && grown.flushed == st.flushed && |grown.batch| == |st.batch| + 1
    && base + |grown.batch| == |all| && Holds(grown.batch, all, base)
  }

  lemma JoiningFits(events: seq<Event>, all: seq<Event>, st: State, env: Env, base: nat, grown: State)
    requires Unbroken(events, st, env, base) && OneMore(events, all)
    requires Joined(all, st, grown, base) && Total(grown.batch) <= env.budget
    ensures Unbroken(all, grown, env, base)
  {
    TightStays(events, all, st.flushed, env, base);
  }

  lemma FitsBefore(events: seq<Event>, all: seq<Event>, st: State, env: Env, base: nat)
    requires Ordered(events, st, base) && OneMore(events, all) && Total(st.batch) <= env.budget
    ensures CharsIn(all, base, |events|) <= env.budget
  {
    HeldChars(events, st.batch, base);
    CharsInSame(events, all, base, |events|);
  }

  /** The batch that was joined overflowed, and was flushed. */
  predicate Overflown(all: seq<Event>, st: State, env: Env, base: nat, after: State) {
    after.batch == [] && after.flushed == st.flushed + [Span(base, |all|)] && Overflows(all, Span(base, |all|), env)
  }

  lemma JoiningOverflows(events: seq<Event>, all: seq<Event>, st: State, env: Env, base: nat, after: State)
    requires Ordered(events, st, base) && Unbroken(events, st, env, base) && OneMore(events, all)
    requires Overflown(all, st, env, base, after)
    ensures Unbroken(all, after, env, |all|)
  {
    TightStays(events, all, st.flushed, env, base);
    if st.batch != [] { FitsBefore(events, all, st, env, base); }
    TightMore(all, st.flushed, env, Span(base, |all|), |all|);
  }

  // ----- the steps of the pass ---------------------------------------------------------

  lemma FlushIsFlushed(st: State, env: Env, base: nat, after: State)
    requires Placed(st.result, st.batch) && after == Flush(st, env) && (st.batch != [] ==> st.batch[0].idx == base)
    ensures Flushed(st, after, base)
  {
  }

  lemma JoiningHolds(all: seq<Event>, batch: seq<Item>, item: Item, base: nat)
    requires Holds(batch, all, base) && base + |batch| + 1 == |all|
    requires item == Item(|all| - 1, all[|all| - 1], all[|all| - 1].content) && IsText(item.event)
    ensures Holds(batch + [item], all, base)
  {
  }

  lemma OverflowsWhenJoined(all: seq<Event>, st: State, env: Env, base: nat, grown: State, after: State)
    requires Joined(all, st, grown, base) && Total(grown.batch) > env.budget && Flushed(grown, after, base)
    ensures Overflown(all, st, env, base, after)
  {
    HeldChars(all, grown.batch, base);
  }

  lemma JoinsAndOverflows(all: seq<Event>, st: State, env: Env, base: nat, grown: State, after: State)
    requires Placed(grown.result, grown.batch) && after == Flush(grown, env)
    requires Joined(all, st, grown, base) && Total(grown.batch) > env.budget
    ensures Overflown(all, st, env, base, after)
  {
    assert grown.batch[0].idx == base;
    FlushIsFlushed(grown, env, base, after);
    OverflowsWhenJoined(all, st, env, base, grown, after);
  }

  /** The event does not join the batch. */
  predicate StaysOut(st: State, e: Event, env: Env) {
    !IsText(e) || (Oversized(e, e.content, env.threshold) && env.works(st.calls))
  }

  lemma OtherCase(st: State, e: Event, env: Env, base: nat, after: State)
    requires Placed(st.result, st.batch) && after == Step(st, e, env) && e.kind == NotObservation
    requires st.batch != [] ==> st.batch[0].idx == base
    ensures Flushed(st, after, base)
  {
    FlushIsFlushed(st, env, base, Flush(st, env));
  }

  lemma EmptyCase(st: State, e: Event, env: Env, base: nat, after: State)
    requires Placed(st.result, st.batch) && after == Step(st, e, env) && e.kind != NotObservation && e.content == ""
    requires st.batch != [] ==> st.batch[0].idx == base
    ensures Flushed(st, after, base)
  {
    FlushIsFlushed(Beside(st, e), env, base, after);
  }

  lemma AtOnceCase(st: State, e: Event, env: Env, base: nat, after: State)
    requires Placed(st.result, st.batch) && after == Step(st, e, env) && IsText(e) && StaysOut(st, e, env)
    requires st.batch != [] ==> st.batch[0].idx == base
    ensures Flushed(st, after, base)
  {
    FlushIsFlushed(Previewed(st, e, env), env, base, after);
  }

  lemma StaysOutCase(st: State, e: Event, env: Env, base: nat, after: State)
    requires Placed(st.result, st.batch) && after == Step(st, e, env) && StaysOut(st, e, env)
    requires st.batch != [] ==> st.batch[0].idx == base
    ensures Flushed(st, after, base)
  {
    if e.kind == NotObservation {
      OtherCase(st, e, env, base, after);
    } else if e.content == "" {
      EmptyCase(st, e, env, base, after);
    } else {
      AtOnceCase(st, e, env, base, after);
    }
  }

  lemma JoinsCase(all: seq<Event>, st: State, e: Event, env: Env, base: nat, after: State)
    requires Placed(st.result, st.batch) && after == Step(st, e, env) && !StaysOut(st, e, env)
    requires |all| == |st.result| + 1 == base + |st.batch| + 1 && all[|st.result|] == e && Holds(st.batch, all, base)
    ensures (Joined(all, st, after, base) && Total(after.batch) <= env.budget) || Overflown(all, st, env, base, after)
  {
    var grown := Grown(st, e, env);
    JoiningHolds(all, st.batch, Item(|st.result|, e, e.content), base);
    if Total(grown.batch) > env.budget { JoinsAndOverflows(all, st, env, base, grown, after); }
  }

  /** What a step can do: flush the batch as it is, let the event join it, or make it overflow. */
  predicate Steps(all: seq<Event>, st: State, env: Env, base: nat, after: State) {
    || Flushed(st, after, base)
    || (Joined(all, st, after, base) && Total(after.batch) <= env.budget)
    || Overflown(all, st, env, base, after)
  }

  lemma StepCases(all: seq<Event>, st: State, e: Event, env: Env, base: nat, after: State)
    requires Placed(st.result, st.batch) && after == Step(st, e, env)
    requires |all| == |st.result| + 1 == base + |st.batch| + 1 && all[|st.result|] == e && Holds(st.batch, all, base)
    ensures Steps(all, st, env, base, after)
  {
    if StaysOut(st, e, env) {
      StaysOutCase(st, e, env, base, after);
    } else {
      JoinsCase(all, st, e, env, base, after);
    }
  }

  /** Where the pass stands between two events. */
  predicate Tidy(events: seq<Event>, st: State) {
    |st.batch| <= |events| == |st.result| && Placed(st.result, st.batch) && Ordered(events, st, |events| - |st.batch|)
  }

  predicate TightTail(events: seq<Event>, st: State, env: Env) {
    |st.batch| <= |events| && Unbroken(events, st, env, |events| - |st.batch|)
  }

  lemma StepsKeepTight(events: seq<Event>, all: seq<Event>, st: State, env: Env, after: State)
    requires Tidy(events, st) && TightTail(events, st, env) && OneMore(events, all)
    requires Steps(all, st, env, |events| - |st.batch|, after)
    ensures TightTail(all, after, env)
  {
    var base := |events| - |st.batch|;
    if Flushed(st, after, base) {
      OtherEventKeepsTight(events, all, st, env, base, after);
    } else if Overflown(all, st, env, base, after) {
      JoiningOverflows(events, all, st, env, base, after);
    } else {
      JoiningFits(events, all, st, env, base, after);
    }
  }

  lemma InvIsTidy(events: seq<Event>, st: State, env: Env)
    requires Inv(events, st, env) && Placed(st.result, st.batch)
    ensures Tidy(events, st)
  {
  }

  lemma FoldIsTidy(heap: nat -> Event, events: seq<Event>, env: Env)
    requires Live(heap, events)
    ensures Tidy(events, Fold(events, env))
  {
    FoldInv(heap, events, env);
    InvIsTidy(events, Fold(events, env), env);
  }

  lemma HoldsInMore(events: seq<Event>, all: seq<Event>, batch: seq<Item>, base: nat)
    requires OneMore(events, all) && Holds(batch, events, base)
    ensures Holds(batch, all, base)
  {
  }

  lemma StepKeepsTight(events: seq<Event>, all: seq<Event>, st: State, e: Event, env: Env, after: State)
    requires Tidy(events, st) && TightTail(events, st, env) && OneMore(events, all) && all[|events|] == e
    requires after == Step(st, e, env)
    ensures TightTail(all, after, env)
  {
    HoldsInMore(events, all, st.batch, |events| - |st.batch|);
    StepCases(all, st, e, env, |events| - |st.batch|, after);
    StepsKeepTight(events, all, st, env, after);
  }

  lemma {:induction false} FoldIsTight(heap: nat -> Event, events: seq<Event>, env: Env)
    requires Live(heap, events)
    ensures TightTail(events, Fold(events, env), env)
  {
    if events != [] {
      var before, e := events[..|events| - 1], events[|events| - 1];
      FoldIsTidy(heap, before, env);
      FoldIsTight(heap, before, env);
      StepKeepsTight(before, events, Fold(before, env), e, env, Fold(events, env));
    }
  }

  lemma EndFlushes(events: seq<Event>, st: State, env: Env, out: State)
    requires Tidy(events, st) && out == Flush(st, env)
    ensures Flushed(st, out, |events| - |st.batch|)
  {
    FlushIsFlushed(st, env, |events| - |st.batch|, out);
  }

  lemma EndIsTight(events: seq<Event>, st: State, env: Env, out: State)
    requires Tidy(events, st) && TightTail(events, st, env) && Flushed(st, out, |events| - |st.batch|)
    ensures Tight(events, out.flushed, env, |events| + 1)
  {
    FlushFits(events, st, env, |events| - |st.batch|, out, |events| + 1);
  }

  lemma BudgetIsTight(heap: nat -> Event, events: seq<Event>, env: Env)
    requires Live(heap, events)
    ensures Tight(events, Budgeted(events, env).flushed, env, |events| + 1)
  {
    var st := Fold(events, env);
    FoldIsTidy(heap, events, env);
    FoldIsTight(heap, events, env);
    EndFlushes(events, st, env, Budgeted(events, env));
    EndIsTight(events, st, env, Budgeted(events, env));
  }

  // ----- what follows a batch ----------------------------------------------------------

  /** What starts first behind batch `i`: the next batch, or `next`. */
  function Following(flushed: seq<Span>, i: nat, next: nat): nat
    requires i < |flushed|
  {
    if i + 1 < |flushed| then flushed[i + 1].lo else next
  }

  lemma {:induction false} TightAt(events: seq<Event>, flushed: seq<Span>, env: Env, next: nat, i: nat)
    requires Tight(events, flushed, env, next) && i < |flushed|
    ensures FitsUntilLast(events, flushed[i], env)
    ensures flushed[i].hi == Following(flushed, i, next) ==> Overflows(events, flushed[i], env)
  {
    if i + 1 < |flushed| { TightAt(events, flushed[..|flushed| - 1], env, Last(flushed).lo, i); }
  }

  lemma {:induction false} CoveredBelow(events: seq<Event>, result: seq<Event>, flushed: seq<Span>, env: Env, n: nat,
                                        p: nat)
    requires Batches(events, result, flushed, env, n)
    ensures Covered(flushed, p) ==> p < n
  {
    if flushed != [] { CoveredBelow(events, result, flushed[..|flushed| - 1], env, Last(flushed).lo, p); }
  }

  lemma {:induction false} EndsBelow(events: seq<Event>, result: seq<Event>, flushed: seq<Span>, env: Env, n: nat,
                                     i: nat)
    requires Batches(events, result, flushed, env, n) && i < |flushed|
    ensures flushed[i].lo < flushed[i].hi <= Following(flushed, i, n) <= n
  {
    if i + 1 < |flushed| {
      var front := flushed[..|flushed| - 1];
      EndsBelow(events, result, front, env, Last(flushed).lo, i);
      if i + 1 < |front| { EndsBelow(events, result, front, env, Last(flushed).lo, i + 1); }
    }
  }

  /** A batch that nothing follows immediately has a position behind it that is in no batch. */
  lemma {:induction false} GapIsUncovered(events: seq<Event>, result: seq<Event>, flushed: seq<Span>, env: Env, n: nat,
                                          i: nat)
    requires Batches(events, result, flushed, env, n) && i < |flushed| && flushed[i].hi < Following(flushed, i, n)
    ensures !Covered(flushed, flushed[i].hi)
  {
    var front, p := flushed[..|flushed| - 1], flushed[i].hi;
    if i + 1 < |flushed| {
      EndsBelow(events, result, front, env, Last(flushed).lo, i);
      GapIsUncovered(events, result, front, env, Last(flushed).lo, i);
    } else {
      CoveredBelow(events, result, front, env, Last(flushed).lo, p);
    }
  }

  /** Every batch ends for a reason: the events end, or it overflowed, and only with its last observation,
      or an event follows that is in no batch: no observation, an empty one, or one replaced at once. */
  lemma BatchesEndForAReason(heap: nat -> Event, events: seq<Event>, env: Env, i: nat)
    requires Live(heap, events) && i < |Budgeted(events, env).flushed|
    ensures var out := Budgeted(events, env);
      var s := out.flushed[i];
      && s.lo < s.hi <= |events| == |out.result|
      && (s.lo + 1 < s.hi ==> CharsIn(events, s.lo, s.hi - 1) <= env.budget)
      && (|| s.hi == |events| || CharsIn(events, s.lo, s.hi) > env.budget
          || (!Covered(out.flushed, s.hi) && Alone(events[s.hi], out.result[s.hi], env)))
  {
    var out := Budgeted(events, env);
    var s := out.flushed[i];
    BudgetSettlesEverything(heap, events, env);
    BudgetIsTight(heap, events, env);
    TightAt(events, out.flushed, env, |events| + 1, i);
    EndsBelow(events, out.result, out.flushed, env, |events|, i);
    if s.hi < |events| && s.hi < Following(out.flushed, i, |events|) {
      GapIsUncovered(events, out.result, out.flushed, env, |events|, i);
      assert SettledAt(events, out.result, out.flushed, env, s.hi);
    }
  }
}
