/** The tool-result budget: oversized outputs are replaced by previews of what was written to disk, at
    once or when the batch they belong to outgrows its budget. */
module ToolResultBudget {
  import opened PyText
  import opened PyCollections

  /** Commands, file reads, terminal and MCP outputs are the observations that are written to disk. */
  datatype Kind = Persistable | OtherObservation | NotObservation

  /** An event. `ref` tells the event objects of a list apart; a copy made here is a new object. */
  datatype Event = Event(ref: nat, copied: bool, id: Option<int>, kind: Kind, content: string)

  /** A batched observation: where it stands in the result, and its content. */
  datatype Item = Item(idx: nat, event: Event, content: string)

  /** The limits, the preview of a written output, what is kept of one that cannot be written, and
      which of the writes work, by number. */
  datatype Env = Env(threshold: int, budget: int, preview: (Event, string) -> string, cut: string -> string,
                     works: nat -> bool)

  function Copy(e: Event, content: string): Event { e.(copied := true, content := content) }

  predicate Oversized(e: Event, content: string, threshold: int) { |content| >= threshold && e.kind == Persistable }

  /** `content[:2000]`, a marker and `content[-1000:]`. */
  function Truncated(content: string): string {
    var head := if |content| <= 2000 then content else content[..2000];
    var tail := if |content| <= 1000 then content else content[|content| - 1000..];
    head + MARKER + tail
  }

  const MARKER := "\n[... output truncated ...]\n"

  /** The first 2000 characters are kept before the marker and the last 1000 behind it; a shorter output is
      repeated there as a whole. */
  lemma TruncatedMeaning(content: string)
    ensures var kept := Truncated(content);
      && (|content| >= 2000 ==> kept[..2000] == content[..2000] && kept[2000..|kept| - 1000] == MARKER)
      && (|content| >= 1000 ==> |kept| >= 1000 && kept[|kept| - 1000..] == content[|content| - 1000..])
      && (|content| <= 2000 ==> content + MARKER <= kept)
      && (1000 <= |content| <= 2000 ==> |kept| == |content| + |MARKER| + 1000)
      && (|content| <= 1000 ==> kept == content + MARKER + content)
  {
    var kept := Truncated(content);
    if |content| >= 2000 {
      assert content[..2000] + MARKER <= kept;
      assert kept[2000..|kept| - 1000] == MARKER;
    }
    if |content| == 1000 { assert content[0..] == content; }
  }

  /** Truncating shortens an output exactly when it is longer than what is kept of it, so never one of
      at most 3000 characters. */
  lemma TruncationShortensIff(content: string)
    ensures |Truncated(content)| < |content| <==> |content| > 3000 + |MARKER|
  {
  }

  function Total(items: seq<Item>): nat {
    if items == [] then 0 else Total(items[..|items| - 1]) + |items[|items| - 1].content|
  }

  // ----- shrinking a batch -------------------------------------------------------------

  function ByLength(item: Item): real { |item.content| as real }

  /** The items, those of the object `e` with another content. */
  function ReplaceIn(items: seq<Item>, e: Event, content: string): (r: seq<Item>)
    ensures |r| == |items|
    ensures forall k :: 0 <= k < |r| ==> r[k].idx == items[k].idx && r[k].event == items[k].event
    ensures forall k :: 0 <= k < |r| ==>
      r[k].content == if items[k].event.ref == e.ref then content else items[k].content
  {
    seq(|items|, k requires 0 <= k < |items| =>
      if items[k].event.ref == e.ref then items[k].(content := content) else items[k])
  }

  /** What the content of an item becomes when its turn comes, and how many writes that takes. */
  function Replacement(item: Item, env: Env, calls: nat): (string, nat) {
    if !Oversized(item.event, item.content, env.threshold / 2) then (item.content, calls)
    else if env.works(calls) then (env.preview(item.event, item.content), calls + 1)
    else (env.cut(item.content), calls + 1)
  }

  /** Replacing in the given order until the items fit the budget. */
  function ShrinkFrom(items: seq<Item>, order: seq<Item>, env: Env, calls: nat): (r: (seq<Item>, nat))
    ensures |r.0| == |items|
    ensures forall k {:trigger r.0[k]} :: 0 <= k < |items| ==>
      r.0[k].idx == items[k].idx && r.0[k].event == items[k].event
    decreases |order|
  {
    if order == [] || Total(items) <= env.budget then (items, calls)
    else
      var (content, used) := Replacement(order[0], env, calls);
      ShrinkFrom(ReplaceIn(items, order[0].event, content), order[1..], env, used)
  }

  function Shrunk(batch: seq<Item>, env: Env, calls: nat): (r: (seq<Item>, nat))
    ensures |r.0| == |batch|
    ensures forall k {:trigger r.0[k]} :: 0 <= k < |batch| ==>
      r.0[k].idx == batch[k].idx && r.0[k].event == batch[k].event
  {
    ShrinkFrom(batch, SortDesc(ByLength, batch), env, calls)
  }

  predicate Placed(result: seq<Event>, items: seq<Item>) { forall k :: 0 <= k < |items| ==> items[k].idx < |result| }

  function WriteBack(result: seq<Event>, items: seq<Item>): (r: seq<Event>)
    requires Placed(result, items)
    ensures |r| == |result|
  {
    if items == [] then result
    else
      var last := items[|items| - 1];
      WriteBack(result, items[..|items| - 1])[last.idx := Copy(last.event, last.content)]
  }

  method WriteItems(result: seq<Event>, items: seq<Item>) returns (after: seq<Event>)
    requires Placed(result, items)
    ensures after == WriteBack(result, items)
  {
    after := result;
    for i := 0 to |items|
      invariant after == WriteBack(result, items[..i])
    {
      assert items[..i + 1][..i] == items[..i];
      after := after[items[i].idx := Copy(items[i].event, items[i].content)];
    }
    assert items[..|items|] == items;
  }

  lemma ShrinkTurn(items: seq<Item>, order: seq<Item>, i: nat, env: Env, used: nat)
    requires i < |order| && Total(items) > env.budget
    ensures var (content, more) := Replacement(order[i], env, used);
      ShrinkFrom(items, order[i..], env, used)
        == ShrinkFrom(ReplaceIn(items, order[i].event, content), order[i + 1..], env, more)
  {
    assert order[i..][0] == order[i] && order[i..][1..] == order[i + 1..];
  }

  /** What remains to be done from `order[i]` on leads to `goal`. */
  predicate LeadsTo(items: seq<Item>, order: seq<Item>, i: nat, env: Env, used: nat, goal: (seq<Item>, nat)) {
    i <= |order| && ShrinkFrom(items, order[i..], env, used) == goal
  }

  lemma LeadsOn(items: seq<Item>, order: seq<Item>, i: nat, env: Env, used: nat, goal: (seq<Item>, nat))
    requires LeadsTo(items, order, i, env, used, goal) && i < |order| && Total(items) > env.budget
    ensures var (content, more) := Replacement(order[i], env, used);
      LeadsTo(ReplaceIn(items, order[i].event, content), order, i + 1, env, more, goal)
  {
    ShrinkTurn(items, order, i, env, used);
  }

  lemma LeadsHere(items: seq<Item>, order: seq<Item>, i: nat, env: Env, used: nat, goal: (seq<Item>, nat))
    requires LeadsTo(items, order, i, env, used, goal) && (i == |order| || Total(items) <= env.budget)
    ensures goal == (items, used)
  {
  }

  /** The loop that replaces the longest contents first. */
  method ReplaceLongest(batch: seq<Item>, order: seq<Item>, env: Env, calls: nat)
    returns (remaining: seq<Item>, used: nat)
    ensures (remaining, used) == ShrinkFrom(batch, order, env, calls)
  {
    remaining, used := batch, calls;
    ghost var goal := ShrinkFrom(batch, order, env, calls);
    var i := 0;
    assert order[0..] == order;
    while i < |order| && Total(remaining) > env.budget
      invariant i <= |order| && LeadsTo(remaining, order, i, env, used, goal)
    {
      LeadsOn(remaining, order, i, env, used, goal);
      var (content, more) := Replacement(order[i], env, used);
      remaining, used := ReplaceIn(remaining, order[i].event, content), more;
      i := i + 1;
    }
    LeadsHere(remaining, order, i, env, used, goal);
  }

  /** `_shrink_observation_batch`: the batch is written back into the result, shrunk if it has to be. */
  method ShrinkObservationBatch(result: seq<Event>, batch: seq<Item>, env: Env, calls: nat)
    returns (after: seq<Event>, used: nat)
    requires Placed(result, batch)
    ensures var (kept, n) := Shrunk(batch, env, calls); after == WriteBack(result, kept) && used == n
  {
    if batch == [] { return result, calls; }
    if Total(batch) <= env.budget {
      after := WriteItems(result, batch);
      return after, calls;
    }
    var remaining;
    remaining, used := ReplaceLongest(batch, SortDesc(ByLength, batch), env, calls);
    after := WriteItems(result, remaining);
  }

  // ----- the whole pass ----------------------------------------------------------------

  /** A batch that has been written back: the positions from `lo` to before `hi`. */
  datatype Span = Span(lo: nat, hi: nat)

  /** `flushed` is the history of the batches, kept for the specification only. */
  datatype State = State(result: seq<Event>, batch: seq<Item>, calls: nat, flushed: seq<Span>)

  function Flush(st: State, env: Env): State
    requires Placed(st.result, st.batch)
  {
    var (kept, calls) := Shrunk(st.batch, env, st.calls);
    State(WriteBack(st.result, kept), [], calls,
          if st.batch == [] then st.flushed else st.flushed + [Span(st.batch[0].idx, st.batch[0].idx + |st.batch|)])
  }

  /** The event joins the batch; trying to write an output that is too long counts. */
  function Grown(st: State, e: Event, env: Env): State {
    State(st.result + [e], st.batch + [Item(|st.result|, e, e.content)],
          if Oversized(e, e.content, env.threshold) then st.calls + 1 else st.calls, st.flushed)
  }

  function Beside(st: State, e: Event): State { st.(result := st.result + [e]) }

  function Previewed(st: State, e: Event, env: Env): State {
    st.(result := st.result + [Copy(e, env.preview(e, e.content))], calls := st.calls + 1)
  }

  function Step(st: State, e: Event, env: Env): (after: State)
    requires Placed(st.result, st.batch)
    ensures Placed(after.result, after.batch)
  {
    if e.kind == NotObservation then
      var flat := Flush(st, env);
      flat.(result := flat.result + [e])
    else if e.content == "" then Flush(Beside(st, e), env)
    else if Oversized(e, e.content, env.threshold) && env.works(st.calls) then Flush(Previewed(st, e, env), env)
    else
      var grown := Grown(st, e, env);
      if Total(grown.batch) > env.budget then Flush(grown, env) else grown
  }

  function Fold(events: seq<Event>, env: Env): (st: State)
    ensures Placed(st.result, st.batch)
  {
    if events == [] then State([], [], 0, []) else Step(Fold(events[..|events| - 1], env), events[|events| - 1], env)
  }

  function Budgeted(events: seq<Event>, env: Env): State { Flush(Fold(events, env), env) }

  method FlushBatch(result: seq<Event>, batch: seq<Item>, env: Env, calls: nat, ghost flushed: seq<Span>)
    returns (after: seq<Event>, used: nat, ghost spans: seq<Span>)
    requires Placed(result, batch)
    ensures var st := Flush(State(result, batch, calls, flushed), env); after == st.result && used == st.calls
    ensures State(after, [], used, spans) == Flush(State(result, batch, calls, flushed), env)
  {
    after, used := ShrinkObservationBatch(result, batch, env, calls);
    spans := Flush(State(result, batch, calls, flushed), env).flushed;
  }

  /** One event of the pass. */
  method BudgetEvent(result: seq<Event>, batch: seq<Item>, e: Event, env: Env, calls: nat, ghost flushed: seq<Span>)
    returns (after: seq<Event>, rest: seq<Item>, used: nat, ghost spans: seq<Span>)
    requires Placed(result, batch)
    ensures var st := Step(State(result, batch, calls, flushed), e, env);
      after == st.result && rest == st.batch && used == st.calls
    ensures State(after, rest, used, spans) == Step(State(result, batch, calls, flushed), e, env)
  {
    ghost var st := State(result, batch, calls, flushed);
    after, rest, used, spans := result, [], calls, flushed;
    if e.kind != NotObservation {
      if e.content == "" {
        assert State(result + [e], batch, calls, flushed) == Beside(st, e);
        after, used, spans := FlushBatch(result + [e], batch, env, calls, flushed);
        return;
      }
      if Oversized(e, e.content, env.threshold) {
        used := calls + 1;
        if env.works(calls) {
          after := result + [Copy(e, env.preview(e, e.content))];
          assert State(after, batch, used, flushed) == Previewed(st, e, env);
          after, used, spans := FlushBatch(after, batch, env, used, flushed);
          return;
        }
      }
      rest := batch + [Item(|result|, e, e.content)];
      after := result + [e];
      assert State(after, rest, used, flushed) == Grown(st, e, env);
      if Total(rest) > env.budget {
        after, used, spans := FlushBatch(after, rest, env, used, flushed);
        rest := [];
      }
      return;
    }
    after, used, spans := FlushBatch(result, batch, env, calls, flushed);
    after := after + [e];
  }

  method ApplyToolResultBudget(events: seq<Event>, threshold: int, budget: int, preview: (Event, string) -> string,
                               works: nat -> bool)
    returns (result: seq<Event>)
    ensures result == Budgeted(events, Env(threshold, budget, preview, Truncated, works)).result
  {
    if events == [] { return events; }
    var env := Env(threshold, budget, preview, Truncated, works);
    var batch: seq<Item>, calls: nat := [], 0;
    ghost var flushed: seq<Span> := [];
    result := [];
    for i := 0 to |events|
      invariant Placed(result, batch)
      invariant State(result, batch, calls, flushed) == Fold(events[..i], env)
    {
      assert events[..i + 1][..i] == events[..i];
      result, batch, calls, flushed := BudgetEvent(result, batch, events[i], env, calls, flushed);
    }
    assert events[..|events|] == events;
    result, calls, flushed := FlushBatch(result, batch, env, calls, flushed);
  }

  // ----- what shrinking does -----------------------------------------------------------

  /** The items and the writes after the first `k` of `order` had their turn. */
  function After(batch: seq<Item>, order: seq<Item>, k: nat, env: Env, calls: nat): (r: (seq<Item>, nat))
    requires k <= |order|
    ensures |r.0| == |batch|
    ensures forall i {:trigger r.0[i]} :: 0 <= i < |batch| ==>
      r.0[i].idx == batch[i].idx && r.0[i].event == batch[i].event
  {
    if k == 0 then (batch, calls)
    else
      var (items, used) := After(batch, order, k - 1, env, calls);
      var (content, more) := Replacement(order[k - 1], env, used);
      (ReplaceIn(items, order[k - 1].event, content), more)
  }

  /** After `k` replacements the batch is still over its budget. */
  predicate Overfull(batch: seq<Item>, order: seq<Item>, k: nat, env: Env, calls: nat)
    requires k <= |order|
  {
    Total(After(batch, order, k, env, calls).0) > env.budget
  }

  /** The number of replacements after which shrinking stops: as soon as the batch fits, and only at
      the end if it never does. */
  ghost predicate StopsAt(batch: seq<Item>, order: seq<Item>, k: nat, env: Env, calls: nat) {
    && k <= |order| && (forall j: nat :: j < k ==> Overfull(batch, order, j, env, calls))
    && (k < |order| ==> !Overfull(batch, order, k, env, calls))
  }

  function StopIndex(batch: seq<Item>, order: seq<Item>, first: nat, env: Env, calls: nat): (k: nat)
    requires first <= |order|
    ensures first <= k <= |order|
    decreases |order| - first
  {
    if first < |order| && Overfull(batch, order, first, env, calls) then StopIndex(batch, order, first + 1, env, calls)
    else first
  }

  lemma {:induction false} OverfullBefore(batch: seq<Item>, order: seq<Item>, first: nat, env: Env, calls: nat, j: nat)
    requires first <= |order| && first <= j < StopIndex(batch, order, first, env, calls)
    ensures j <= |order| && Overfull(batch, order, j, env, calls)
    decreases |order| - first
  {
    if first < j { OverfullBefore(batch, order, first + 1, env, calls, j); }
  }

  lemma {:induction false} FitsAtStop(batch: seq<Item>, order: seq<Item>, first: nat, env: Env, calls: nat)
    requires first <= |order|
    ensures var k := StopIndex(batch, order, first, env, calls); k < |order| ==> !Overfull(batch, order, k, env, calls)
    decreases |order| - first
  {
    if first < |order| && Overfull(batch, order, first, env, calls) { FitsAtStop(batch, order, first + 1, env, calls); }
  }

  lemma OneTurn(batch: seq<Item>, order: seq<Item>, k: nat, env: Env, calls: nat)
    requires k < |order| && Overfull(batch, order, k, env, calls)
    ensures var (items, used) := After(batch, order, k, env, calls);
      var (next, more) := After(batch, order, k + 1, env, calls);
      ShrinkFrom(items, order[k..], env, used) == ShrinkFrom(next, order[k + 1..], env, more)
  {
    ShrinkTurn(After(batch, order, k, env, calls).0, order, k, env, After(batch, order, k, env, calls).1);
  }

  lemma {:induction false} ShrinkFromIsAfter(batch: seq<Item>, order: seq<Item>, first: nat, env: Env, calls: nat)
    requires first <= |order|
    ensures var (items, used) := After(batch, order, first, env, calls);
      ShrinkFrom(items, order[first..], env, used)
        == After(batch, order, StopIndex(batch, order, first, env, calls), env, calls)
    decreases |order| - first
  {
    if first < |order| && Overfull(batch, order, first, env, calls) {
      OneTurn(batch, order, first, env, calls);
      ShrinkFromIsAfter(batch, order, first + 1, env, calls);
    }
  }

  lemma ShrinkStopsFirst(batch: seq<Item>, env: Env, calls: nat) returns (k: nat)
    ensures StopsAt(batch, SortDesc(ByLength, batch), k, env, calls)
    ensures Shrunk(batch, env, calls) == After(batch, SortDesc(ByLength, batch), k, env, calls)
  {
    var order := SortDesc(ByLength, batch);
    k := StopIndex(batch, order, 0, env, calls);
    forall j: nat | j < k ensures Overfull(batch, order, j, env, calls) {
      OverfullBefore(batch, order, 0, env, calls, j);
    }
    FitsAtStop(batch, order, 0, env, calls);
    ShrinkFromIsAfter(batch, order, 0, env, calls);
    assert order[0..] == order;
  }

  /** The objects behind the references: an item's reference stands for its event, whose content it holds. */
  predicate LiveItems(heap: nat -> Event, batch: seq<Item>) {
    forall i :: 0 <= i < |batch| ==> LiveItem(heap, batch[i])
  }

  predicate LiveItem(heap: nat -> Event, item: Item) {
    item.event == heap(item.event.ref) && item.content == item.event.content
  }

  /** `content` is the preview of `original`, or what is kept of it where the write failed. */
  predicate Replaces(e: Event, original: string, content: string, env: Env) {
    content == env.preview(e, original) || content == env.cut(original)
  }

  predicate Big(item: Item, env: Env) { Oversized(item.event, item.content, env.threshold / 2) }

  predicate Turned(order: seq<Item>, k: nat, e: Event)
    requires k <= |order|
  {
    exists j :: 0 <= j < k && order[j].event.ref == e.ref
  }

  /** What the content of item `i` is once the first `k` had their turn. */
  predicate ContentAfter(batch: seq<Item>, order: seq<Item>, k: nat, env: Env, i: nat, content: string)
    requires k <= |order| && i < |batch|
  {
    if Turned(order, k, batch[i].event) && Big(batch[i], env) then
      Replaces(batch[i].event, batch[i].content, content, env)
    else content == batch[i].content
  }

  lemma TurnedNext(order: seq<Item>, k: nat, e: Event)
    requires k < |order|
    ensures Turned(order, k + 1, e) <==> Turned(order, k, e) || order[k].event.ref == e.ref
  {
  }

  lemma NextContent(heap: nat -> Event, batch: seq<Item>, order: seq<Item>, k: nat, env: Env, used: nat, i: nat,
                    items: seq<Item>)
    requires LiveItems(heap, batch) && k < |order| && i < |batch| == |items| && order[k] in batch
    requires items[i].event == batch[i].event
    requires ContentAfter(batch, order, k, env, i, items[i].content)
    ensures ContentAfter(batch, order, k + 1, env, i,
                         ReplaceIn(items, order[k].event, Replacement(order[k], env, used).0)[i].content)
  {
    TurnedNext(order, k, batch[i].event);
    var j :| 0 <= j < |batch| && batch[j] == order[k];
    if order[k].event.ref == batch[i].event.ref {
      assert order[k].event == batch[i].event && order[k].content == batch[i].content;
    }
  }

  lemma {:induction false} AfterContent(heap: nat -> Event, batch: seq<Item>, order: seq<Item>, k: nat, env: Env,
                                        calls: nat, i: nat)
    requires LiveItems(heap, batch) && k <= |order| && i < |batch| && forall j :: 0 <= j < |order| ==> order[j] in batch
    ensures ContentAfter(batch, order, k, env, i, After(batch, order, k, env, calls).0[i].content)
  {
    if k > 0 {
      var (items, used) := After(batch, order, k - 1, env, calls);
      assert After(batch, order, k, env, calls).0
          == ReplaceIn(items, order[k - 1].event, Replacement(order[k - 1], env, used).0);
      AfterContent(heap, batch, order, k - 1, env, calls, i);
      NextContent(heap, batch, order, k - 1, env, used, i, items);
    }
  }

  predicate AllReplaced(batch: seq<Item>, kept: seq<Item>, env: Env)
    requires |batch| == |kept|
  {
    forall i :: 0 <= i < |batch| && Big(batch[i], env) ==>
      Replaces(batch[i].event, batch[i].content, kept[i].content, env)
  }

  predicate OnlyBigChange(batch: seq<Item>, kept: seq<Item>, env: Env)
    requires |batch| == |kept|
  {
    forall i :: 0 <= i < |batch| && kept[i].content != batch[i].content ==>
      Big(batch[i], env) && Replaces(batch[i].event, batch[i].content, kept[i].content, env)
  }

  predicate LongerItem(item: Item, than: Item) { |item.content| > |than.content| }

  /** Where a content was changed, every longer big one was replaced. */
  predicate LargestFirst(batch: seq<Item>, kept: seq<Item>, env: Env)
    requires |batch| == |kept|
  {
    forall i, j {:trigger LongerItem(batch[j], batch[i])}
      | 0 <= i < |batch| && 0 <= j < |batch| && LongerItem(batch[j], batch[i]) ::
      kept[i].content != batch[i].content && Big(batch[j], env) ==>
        Replaces(batch[j].event, batch[j].content, kept[j].content, env)
  }

  lemma SortedTogether(batch: seq<Item>)
    ensures var order := SortDesc(ByLength, batch);
      && |order| == |batch|
      && (forall j :: 0 <= j < |order| ==> order[j] in batch)
      && (forall i :: 0 <= i < |batch| ==> batch[i] in order)
      && (forall m, n :: 0 <= m < n < |order| ==> |order[m].content| >= |order[n].content|)
  {
    var order := SortDesc(ByLength, batch);
    SortProperties(ByLength, batch);
    forall j | 0 <= j < |order| ensures order[j] in batch { assert order[j] in multiset(order); }
    forall i | 0 <= i < |batch| ensures batch[i] in order { assert batch[i] in multiset(batch); }
    forall m, n | 0 <= m < n < |order| ensures |order[m].content| >= |order[n].content| {
      assert ByLength(order[m]) >= ByLength(order[n]);
    }
  }

  lemma LongerTurnedFirst(heap: nat -> Event, batch: seq<Item>, order: seq<Item>, k: nat, i: nat, j: nat)
    requires LiveItems(heap, batch) && k <= |order| && i < |batch| && j < |batch|
    requires forall n :: 0 <= n < |order| ==> order[n] in batch
    requires batch[j] in order && forall m, n :: 0 <= m < n < |order| ==> |order[m].content| >= |order[n].content|
    requires Turned(order, k, batch[i].event) && LongerItem(batch[j], batch[i])
    ensures Turned(order, k, batch[j].event)
  {
    var m :| 0 <= m < k && order[m].event.ref == batch[i].event.ref;
    var n :| 0 <= n < |order| && order[n] == batch[j];
    assert order[m] in batch;
    assert |order[m].content| == |batch[i].content|;
    assert n < m;
  }

  /** A batch is left alone if it fits. Otherwise contents of at least half the threshold are replaced,
      longer ones first, until the batch fits or none of them is left. */
  lemma ShrinkMeaning(heap: nat -> Event, batch: seq<Item>, env: Env, calls: nat)
    requires LiveItems(heap, batch)
    ensures var kept := Shrunk(batch, env, calls).0;
      && (Total(batch) <= env.budget ==> kept == batch)
      && (Total(kept) <= env.budget || AllReplaced(batch, kept, env))
      && OnlyBigChange(batch, kept, env) && LargestFirst(batch, kept, env)
  {
    var order := SortDesc(ByLength, batch);
    SortedTogether(batch);
    var k := ShrinkStopsFirst(batch, env, calls);
    forall i | 0 <= i < |batch|
      ensures ContentAfter(batch, order, k, env, i, Shrunk(batch, env, calls).0[i].content)
    {
      AfterContent(heap, batch, order, k, env, calls, i);
    }
    forall i, j | 0 <= i < |batch| && 0 <= j < |batch| && Turned(order, k, batch[i].event)
      && LongerItem(batch[j], batch[i])
      ensures Turned(order, k, batch[j].event)
    {
      LongerTurnedFirst(heap, batch, order, k, i, j);
    }
    if k == |order| {
      forall i | 0 <= i < |batch| ensures Turned(order, k, batch[i].event) {
        assert batch[i] in order;
      }
    }
  }

  // ----- what the whole pass does ------------------------------------------------------

  predicate IsText(e: Event) { e.kind != NotObservation && e.content != "" }

  predicate Changed(e: Event, r: Event) { r.content != e.content }

  predicate Replaced(e: Event, r: Event, env: Env) { Replaces(e, e.content, r.content, env) }

  predicate BigEvent(e: Event, env: Env) { Oversized(e, e.content, env.threshold / 2) }

  function CharsIn(events: seq<Event>, lo: nat, hi: nat): nat
    requires hi <= |events|
  {
    if hi <= lo then 0 else CharsIn(events, lo, hi - 1) + |events[hi - 1].content|
  }

  lemma {:induction false} CharsInTotal(events: seq<Event>, lo: nat, items: seq<Item>)
    requires lo + |items| <= |events| && forall k :: 0 <= k < |items| ==> events[lo + k].content == items[k].content
    ensures CharsIn(events, lo, lo + |items|) == Total(items)
  {
    if items != [] { CharsInTotal(events, lo, items[..|items| - 1]); }
  }

  lemma {:induction false} CharsInSame(events: seq<Event>, others: seq<Event>, lo: nat, hi: nat)
    requires hi <= |events| && hi <= |others| && forall p :: lo <= p < hi ==> events[p] == others[p]
    ensures CharsIn(events, lo, hi) == CharsIn(others, lo, hi)
  {
    if lo < hi { CharsInSame(events, others, lo, hi - 1); }
  }

  /** A batched observation comes out as a copy, its content changed only if it is big, and replaced then. */
  predicate ShrunkAt(e: Event, r: Event, env: Env) {
    IsText(e) && r == Copy(e, r.content) && (Changed(e, r) ==> BigEvent(e, env) && Replaced(e, r, env))
  }

  predicate Longer(e: Event, than: Event) { |e.content| > |than.content| }

  predicate LeftAloneIfFits(events: seq<Event>, result: seq<Event>, s: Span, env: Env)
    requires s.hi <= |events| == |result|
  {
    CharsIn(events, s.lo, s.hi) <= env.budget ==> forall p :: s.lo <= p < s.hi ==> !Changed(events[p], result[p])
  }

  predicate FitsOrAllReplaced(events: seq<Event>, result: seq<Event>, s: Span, env: Env)
    requires s.hi <= |events| == |result|
  {
    || CharsIn(result, s.lo, s.hi) <= env.budget
    || forall p :: s.lo <= p < s.hi && BigEvent(events[p], env) ==> Replaced(events[p], result[p], env)
  }

  predicate LongestReplacedFirst(events: seq<Event>, result: seq<Event>, s: Span, env: Env)
    requires s.hi <= |events| == |result|
  {
    forall p, q {:trigger Longer(events[q], events[p])}
      | s.lo <= p < s.hi && s.lo <= q < s.hi && Longer(events[q], events[p]) ::
      Changed(events[p], result[p]) && BigEvent(events[q], env) ==> Replaced(events[q], result[q], env)
  }

  /** A batch that fits is left alone; otherwise it fits now or every big content is replaced, and longer
      ones are replaced first. */
  predicate WellShrunk(events: seq<Event>, result: seq<Event>, s: Span, env: Env) {
    && s.hi <= |events| == |result|
    && (forall p :: s.lo <= p < s.hi ==> ShrunkAt(events[p], result[p], env))
    && LeftAloneIfFits(events, result, s, env)
    && FitsOrAllReplaced(events, result, s, env)
    && LongestReplacedFirst(events, result, s, env)
  }

  /** Each reference stands for one event object. */
  predicate Live(heap: nat -> Event, events: seq<Event>) {
    forall i :: 0 <= i < |events| ==> events[i] == heap(events[i].ref)
  }

  /** The batch is the stretch of the events from `base` on. */
  predicate Holds(batch: seq<Item>, events: seq<Event>, base: nat) {
    && base + |batch| <= |events|
    && forall k :: 0 <= k < |batch| ==>
      batch[k] == Item(base + k, events[base + k], events[base + k].content) && IsText(batch[k].event)
  }

  /** `after` is `result` with the stretch from `base` on replaced by copies with the contents kept. */
  ghost predicate Copied(result: seq<Event>, kept: seq<Item>, base: nat, after: seq<Event>) {
    && base + |kept| <= |result| == |after|
    && (forall p :: 0 <= p < base || base + |kept| <= p < |result| ==> after[p] == result[p])
    && (forall k :: 0 <= k < |kept| ==> after[base + k] == Copy(kept[k].event, kept[k].content))
  }

  lemma {:induction false} WriteBackCopies(result: seq<Event>, items: seq<Item>, base: nat)
    requires base + |items| <= |result| && forall k :: 0 <= k < |items| ==> items[k].idx == base + k
    ensures Copied(result, items, base, WriteBack(result, items))
  {
    if items != [] { WriteBackCopies(result, items[..|items| - 1], base); }
  }

  /** `events` and `after` hold from `base` on what `batch` and `kept` say. */
  ghost predicate Mirrors(events: seq<Event>, batch: seq<Item>, kept: seq<Item>, base: nat, after: seq<Event>) {
    && |kept| == |batch| && base + |batch| <= |events| == |after|
    && forall p :: base <= p < base + |batch| ==> MirrorsAt(events, batch, kept, base, after, p)
  }

  ghost predicate MirrorsAt(events: seq<Event>, batch: seq<Item>, kept: seq<Item>, base: nat, after: seq<Event>, p: nat)
    requires |kept| == |batch| && base + |batch| <= |events| == |after| && base <= p < base + |batch|
  {
    var item := batch[p - base];
    && item.event == events[p] && item.content == events[p].content && IsText(events[p])
    && after[p] == Copy(events[p], kept[p - base].content)
  }

  lemma BatchMirrors(events: seq<Event>, batch: seq<Item>, kept: seq<Item>, base: nat, result: seq<Event>,
                     after: seq<Event>)
    requires Holds(batch, events, base) && |kept| == |batch| && |events| == |result|
    requires Copied(result, kept, base, after)
    requires forall k :: 0 <= k < |kept| ==> kept[k].event == batch[k].event
    ensures Mirrors(events, batch, kept, base, after)
  {
    forall p | base <= p < base + |batch| ensures MirrorsAt(events, batch, kept, base, after, p) {
      var k := p - base;
      assert after[base + k] == Copy(kept[k].event, kept[k].content);
    }
  }

  lemma MirrorsShrunkAt(events: seq<Event>, batch: seq<Item>, kept: seq<Item>, base: nat, after: seq<Event>, env: Env,
                        p: nat)
    requires Mirrors(events, batch, kept, base, after) && OnlyBigChange(batch, kept, env) && base <= p < base + |batch|
    ensures ShrunkAt(events[p], after[p], env)
  {
    assert MirrorsAt(events, batch, kept, base, after, p);
  }

  lemma MirrorsLeftAlone(events: seq<Event>, batch: seq<Item>, kept: seq<Item>, base: nat, after: seq<Event>, env: Env)
    requires Mirrors(events, batch, kept, base, after)
    requires CharsIn(events, base, base + |batch|) == Total(batch) && (Total(batch) <= env.budget ==> kept == batch)
    ensures LeftAloneIfFits(events, after, Span(base, base + |batch|), env)
  {
    forall p | base <= p < base + |batch| ensures kept == batch ==> !Changed(events[p], after[p]) {
      assert MirrorsAt(events, batch, kept, base, after, p);
    }
  }

  lemma MirrorsFits(events: seq<Event>, batch: seq<Item>, kept: seq<Item>, base: nat, after: seq<Event>, env: Env)
    requires Mirrors(events, batch, kept, base, after)
    requires CharsIn(after, base, base + |batch|) == Total(kept)
    requires Total(kept) <= env.budget || AllReplaced(batch, kept, env)
    ensures FitsOrAllReplaced(events, after, Span(base, base + |batch|), env)
  {
    if AllReplaced(batch, kept, env) {
      forall p | base <= p < base + |batch| && BigEvent(events[p], env) ensures Replaced(events[p], after[p], env) {
        assert MirrorsAt(events, batch, kept, base, after, p);
        assert Big(batch[p - base], env);
      }
    }
  }

  lemma MirrorsLongest(events: seq<Event>, batch: seq<Item>, kept: seq<Item>, base: nat, after: seq<Event>, env: Env)
    requires Mirrors(events, batch, kept, base, after) && LargestFirst(batch, kept, env)
    ensures LongestReplacedFirst(events, after, Span(base, base + |batch|), env)
  {
    forall p, q | base <= p < base + |batch| && base <= q < base + |batch| && Longer(events[q], events[p])
      && Changed(events[p], after[p]) && BigEvent(events[q], env)
      ensures Replaced(events[q], after[q], env)
    {
      assert MirrorsAt(events, batch, kept, base, after, p) && MirrorsAt(events, batch, kept, base, after, q);
      var i, j := p - base, q - base;
      assert LongerItem(batch[j], batch[i]) && Big(batch[j], env);
    }
  }

  lemma MirrorsTotals(events: seq<Event>, batch: seq<Item>, kept: seq<Item>, base: nat, after: seq<Event>)
    requires Mirrors(events, batch, kept, base, after)
    ensures CharsIn(events, base, base + |batch|) == Total(batch)
    ensures CharsIn(after, base, base + |batch|) == Total(kept)
  {
    forall k | 0 <= k < |batch|
      ensures events[base + k].content == batch[k].content && after[base + k].content == kept[k].content
    {
      assert MirrorsAt(events, batch, kept, base, after, base + k);
    }
    CharsInTotal(events, base, batch);
    CharsInTotal(after, base, kept);
  }

  lemma MirrorsWellShrunk(events: seq<Event>, batch: seq<Item>, kept: seq<Item>, base: nat, after: seq<Event>, env: Env)
    requires Mirrors(events, batch, kept, base, after)
    requires Total(batch) <= env.budget ==> kept == batch
    requires Total(kept) <= env.budget || AllReplaced(batch, kept, env)
    requires OnlyBigChange(batch, kept, env) && LargestFirst(batch, kept, env)
    ensures WellShrunk(events, after, Span(base, base + |batch|), env)
  {
    MirrorsTotals(events, batch, kept, base, after);
    MirrorsLeftAlone(events, batch, kept, base, after, env);
    MirrorsFits(events, batch, kept, base, after, env);
    MirrorsLongest(events, batch, kept, base, after, env);
    forall p | base <= p < base + |batch| ensures ShrunkAt(events[p], after[p], env) {
      MirrorsShrunkAt(events, batch, kept, base, after, env, p);
    }
  }

  lemma BatchIsLive(heap: nat -> Event, batch: seq<Item>, events: seq<Event>, base: nat)
    requires Holds(batch, events, base) && Live(heap, events)
    ensures LiveItems(heap, batch)
  {
    forall i | 0 <= i < |batch| ensures LiveItem(heap, batch[i]) {
      assert events[base + i] == heap(events[base + i].ref);
    }
  }

  /** `after` is `st` with its batch, the stretch from `base` on, written back well shrunk. */
  ghost predicate WrittenBack(events: seq<Event>, st: State, after: State, env: Env, base: nat) {
    var hi := base + |st.batch|;
    && hi <= |events| == |st.result| == |after.result| && after.batch == []
    && after.flushed == (if st.batch == [] then st.flushed else st.flushed + [Span(base, hi)])
    && (forall p :: 0 <= p < base || hi <= p < |events| ==> after.result[p] == st.result[p])
    && WellShrunk(events, after.result, Span(base, hi), env)
  }

  lemma BatchWritesBack(heap: nat -> Event, events: seq<Event>, batch: seq<Item>, kept: seq<Item>, result: seq<Event>,
                        after: seq<Event>, calls: nat, env: Env, base: nat, s: Span)
    requires s == Span(base, base + |batch|) && Holds(batch, events, base) && Live(heap, events) && |events| == |result|
    requires kept == Shrunk(batch, env, calls).0 && after == WriteBack(result, kept)
    ensures Copied(result, kept, base, after)
    ensures WellShrunk(events, after, s, env)
  {
    BatchIsLive(heap, batch, events, base);
    ShrinkMeaning(heap, batch, env, calls);
    WriteBackCopies(result, kept, base);
    BatchMirrors(events, batch, kept, base, result, after);
    MirrorsWellShrunk(events, batch, kept, base, after, env);
  }

  lemma CopiesWriteBack(events: seq<Event>, st: State, kept: seq<Item>, after: State, env: Env, base: nat, s: Span)
    requires s == Span(base, base + |st.batch|) && |kept| == |st.batch| && |events| == |st.result|
    requires Copied(st.result, kept, base, after.result)
    requires WellShrunk(events, after.result, s, env) && after.batch == []
    requires after.flushed == if st.batch == [] then st.flushed else st.flushed + [s]
    ensures WrittenBack(events, st, after, env, base)
  {
  }

  lemma FlushWrites(heap: nat -> Event, events: seq<Event>, st: State, after: State, env: Env, base: nat)
    requires Holds(st.batch, events, base) && Live(heap, events) && |events| == |st.result| && after == Flush(st, env)
    ensures WrittenBack(events, st, after, env, base)
  {
    var kept, s := Shrunk(st.batch, env, st.calls).0, Span(base, base + |st.batch|);
    BatchWritesBack(heap, events, st.batch, kept, st.result, after.result, st.calls, env, base, s);
    FlushSpans(events, st, after, env, base, s);
    CopiesWriteBack(events, st, kept, after, env, base, s);
  }

  lemma FlushSpans(events: seq<Event>, st: State, after: State, env: Env, base: nat, s: Span)
    requires Holds(st.batch, events, base) && |events| == |st.result| && after == Flush(st, env)
    requires s == Span(base, base + |st.batch|)
    ensures after.batch == [] && after.flushed == if st.batch == [] then st.flushed else st.flushed + [s]
  {
  }

  predicate Covered(flushed: seq<Span>, p: nat) {
    flushed != [] && (Last(flushed).lo <= p < Last(flushed).hi || Covered(flushed[..|flushed| - 1], p))
  }

  function Last(flushed: seq<Span>): Span requires flushed != [] { flushed[|flushed| - 1] }

  /** An observation that was written to disk, and replaced by its preview, as soon as it was met. */
  predicate AtOnce(e: Event, r: Event, env: Env) {
    e.content != "" && Oversized(e, e.content, env.threshold) && r == Copy(e, env.preview(e, e.content))
  }

  /** How a position that is in no batch comes out. */
  predicate Alone(e: Event, r: Event, env: Env) { (!IsText(e) && r == e) || AtOnce(e, r, env) }

  /** The batches written back are well shrunk stretches before `n`, disjoint and in order. */
  predicate Batches(events: seq<Event>, result: seq<Event>, flushed: seq<Span>, env: Env, n: nat) {
    flushed == []
    || (Last(flushed).lo < Last(flushed).hi <= n && WellShrunk(events, result, Last(flushed), env)
        && Batches(events, result, flushed[..|flushed| - 1], env, Last(flushed).lo))
  }

  /** The first `n` positions are settled: in a batch, or on their own. */
  predicate Settled(events: seq<Event>, result: seq<Event>, flushed: seq<Span>, env: Env, n: nat) {
    && n <= |events| == |result| && Batches(events, result, flushed, env, n)
    && forall p :: 0 <= p < n ==> SettledAt(events, result, flushed, env, p)
  }

  predicate SettledAt(events: seq<Event>, result: seq<Event>, flushed: seq<Span>, env: Env, p: nat)
    requires p < |events| == |result|
  {
    Covered(flushed, p) || Alone(events[p], result[p], env)
  }

  /** The two lists agree before `n`. */
  predicate Agree(xs: seq<Event>, ys: seq<Event>, n: nat) {
    n <= |xs| && n <= |ys| && forall p :: 0 <= p < n ==> xs[p] == ys[p]
  }

  lemma WellShrunkStays(events: seq<Event>, result: seq<Event>, s: Span, env: Env, n: nat, events': seq<Event>,
                        result': seq<Event>)
    requires WellShrunk(events, result, s, env) && s.hi <= n && |events'| == |result'|
    requires Agree(events, events', n) && Agree(result, result', n)
    ensures WellShrunk(events', result', s, env)
  {
    CharsInSame(events, events', s.lo, s.hi);
    CharsInSame(result, result', s.lo, s.hi);
  }

  lemma {:induction false} BatchesStay(events: seq<Event>, result: seq<Event>, flushed: seq<Span>, env: Env, n: nat,
                                       events': seq<Event>, result': seq<Event>)
    requires Batches(events, result, flushed, env, n) && |events'| == |result'|
    requires Agree(events, events', n) && Agree(result, result', n)
    ensures Batches(events', result', flushed, env, n)
  {
    if flushed != [] {
      WellShrunkStays(events, result, Last(flushed), env, n, events', result');
      BatchesStay(events, result, flushed[..|flushed| - 1], env, Last(flushed).lo, events', result');
    }
  }

  /** Settled positions stay so, whatever comes to stand from `n` on. */
  lemma SettledStays(events: seq<Event>, result: seq<Event>, flushed: seq<Span>, env: Env, n: nat, events': seq<Event>,
                     result': seq<Event>)
    requires Settled(events, result, flushed, env, n) && |events'| == |result'|
    requires Agree(events, events', n) && Agree(result, result', n)
    ensures Settled(events', result', flushed, env, n)
  {
    BatchesStay(events, result, flushed, env, n, events', result');
    forall p | 0 <= p < n ensures SettledAt(events', result', flushed, env, p) {
      assert SettledAt(events, result, flushed, env, p);
    }
  }

  lemma {:induction false} BatchesReach(events: seq<Event>, result: seq<Event>, flushed: seq<Span>, env: Env, n: nat,
                                        m: nat)
    requires Batches(events, result, flushed, env, n) && n <= m
    ensures Batches(events, result, flushed, env, m)
  {
  }

  lemma AloneSettles(events: seq<Event>, result: seq<Event>, flushed: seq<Span>, env: Env, n: nat, next: nat)
    requires Settled(events, result, flushed, env, n) && n < |events| && Alone(events[n], result[n], env)
    requires next == n + 1
    ensures Settled(events, result, flushed, env, next)
  {
    BatchesReach(events, result, flushed, env, n, next);
  }

  lemma BatchSettles(events: seq<Event>, result: seq<Event>, flushed: seq<Span>, env: Env, lo: nat, hi: nat)
    requires Settled(events, result, flushed, env, lo) && lo < hi && WellShrunk(events, result, Span(lo, hi), env)
    ensures Settled(events, result, flushed + [Span(lo, hi)], env, hi)
  {
    var all := flushed + [Span(lo, hi)];
    assert all[..|all| - 1] == flushed && Last(all) == Span(lo, hi);
    forall p | 0 <= p < hi ensures SettledAt(events, result, all, env, p) {
      assert p < lo ==> SettledAt(events, result, flushed, env, p);
    }
  }

  lemma FlushSettles(events: seq<Event>, st: State, after: State, env: Env, base: nat, n: nat)
    requires WrittenBack(events, st, after, env, base) && Settled(events, st.result, st.flushed, env, base)
    requires n == base + |st.batch|
    ensures Settled(events, after.result, after.flushed, env, n)
  {
    SettledStays(events, st.result, st.flushed, env, base, events, after.result);
    if st.batch == [] {
      assert n == base && after.flushed == st.flushed;
    } else {
      BatchSettles(events, after.result, st.flushed, env, base, n);
    }
  }

  /** Everything before the batch is settled, and the batch is the rest. */
  predicate Inv(events: seq<Event>, st: State, env: Env) {
    && |st.batch| <= |events| && Holds(st.batch, events, |events| - |st.batch|)
    && Settled(events, st.result, st.flushed, env, |events| - |st.batch|)
  }

  lemma AppendStays(events: seq<Event>, result: seq<Event>, flushed: seq<Span>, env: Env, n: nat, e: Event, r: Event)
    requires Settled(events, result, flushed, env, n)
    ensures Settled(events + [e], result + [r], flushed, env, n)
  {
    SettledStays(events, result, flushed, env, n, events + [e], result + [r]);
  }

  lemma FlushBehindLast(events: seq<Event>, st: State, env: Env, base: nat, after: State)
    requires base + |st.batch| + 1 == |events| && WrittenBack(events, st, after, env, base)
    requires Settled(events, st.result, st.flushed, env, base)
    requires Alone(events[|events| - 1], st.result[|events| - 1], env)
    ensures Inv(events, after, env)
  {
    FlushSettles(events, st, after, env, base, |events| - 1);
    AloneSettles(events, after.result, after.flushed, env, |events| - 1, |events| - |after.batch|);
  }

  lemma HoldsLonger(batch: seq<Item>, events: seq<Event>, base: nat, e: Event)
    requires Holds(batch, events, base)
    ensures Holds(batch, events + [e], base)
  {
  }

  lemma FlushWider(heap: nat -> Event, all: seq<Event>, wider: State, env: Env, base: nat, after: State)
    requires Holds(wider.batch, all, base) && Live(heap, all) && base + |wider.batch| + 1 == |all| == |wider.result|
    requires Settled(all, wider.result, wider.flushed, env, base) && Alone(all[|all| - 1], wider.result[|all| - 1], env)
    requires after == Flush(wider, env)
    ensures Inv(all, after, env)
  {
    FlushWrites(heap, all, wider, after, env, base);
    FlushBehindLast(all, wider, env, base, after);
  }

  /** A position on its own is appended to the result, before the batch is flushed. */
  lemma AloneThenFlush(heap: nat -> Event, events: seq<Event>, st: State, e: Event, r: Event, env: Env, wider: State,
                       after: State)
    requires Inv(events, st, env) && Live(heap, events + [e]) && Alone(e, r, env)
    requires wider.result == st.result + [r] && wider.batch == st.batch && wider.flushed == st.flushed
    requires Placed(wider.result, wider.batch) && after == Flush(wider, env)
    ensures Inv(events + [e], after, env)
  {
    var all, base := events + [e], |events| - |st.batch|;
    AppendStays(events, st.result, st.flushed, env, base, e, r);
    HoldsLonger(st.batch, events, base, e);
    assert all[|all| - 1] == e && wider.result[|all| - 1] == r;
    FlushWider(heap, all, wider, env, base, after);
  }

  lemma FlushKeepsInv(events: seq<Event>, st: State, env: Env, after: State)
    requires Inv(events, st, env) && WrittenBack(events, st, after, env, |events| - |st.batch|)
    ensures Inv(events, after, env) && after.batch == []
  {
    FlushSettles(events, st, after, env, |events| - |st.batch|, |events| - |after.batch|);
  }

  lemma FlushingKeepsInv(heap: nat -> Event, events: seq<Event>, st: State, env: Env, after: State)
    requires Inv(events, st, env) && Live(heap, events) && after == Flush(st, env)
    ensures Inv(events, after, env) && after.batch == []
  {
    FlushWrites(heap, events, st, after, env, |events| - |st.batch|);
    FlushKeepsInv(events, st, env, after);
  }

  lemma LiveInPrefix(heap: nat -> Event, events: seq<Event>, e: Event)
    requires Live(heap, events + [e])
    ensures Live(heap, events)
  {
    forall i | 0 <= i < |events| ensures events[i] == heap(events[i].ref) {
      assert events[i] == (events + [e])[i];
    }
  }

  /** A position on its own is appended to the result when there is no batch. */
  lemma JoinsAlone(events: seq<Event>, st: State, e: Event, env: Env, after: State)
    requires Inv(events, st, env) && st.batch == [] && Alone(e, e, env)
    requires after == st.(result := st.result + [e])
    ensures Inv(events + [e], after, env)
  {
    AppendStays(events, st.result, st.flushed, env, |events|, e, e);
    AloneSettles(events + [e], after.result, st.flushed, env, |events|, |events + [e]| - |after.batch|);
  }

  lemma JoinsBatch(events: seq<Event>, st: State, e: Event, env: Env, grown: State)
    requires Inv(events, st, env) && IsText(e)
    requires grown == State(st.result + [e], st.batch + [Item(|st.result|, e, e.content)], grown.calls, st.flushed)
    ensures Inv(events + [e], grown, env)
  {
    AppendStays(events, st.result, st.flushed, env, |events| - |st.batch|, e, e);
  }

  lemma OtherKeepsInv(heap: nat -> Event, events: seq<Event>, st: State, e: Event, env: Env, after: State)
    requires Inv(events, st, env) && Live(heap, events + [e]) && after == Step(st, e, env) && e.kind == NotObservation
    ensures Inv(events + [e], after, env)
  {
    var flat := Flush(st, env);
    LiveInPrefix(heap, events, e);
    FlushingKeepsInv(heap, events, st, env, flat);
    JoinsAlone(events, flat, e, env, after);
  }

  lemma AtOnceKeepsInv(heap: nat -> Event, events: seq<Event>, st: State, e: Event, env: Env, after: State)
    requires Inv(events, st, env) && Live(heap, events + [e]) && after == Step(st, e, env) && IsText(e)
    requires Oversized(e, e.content, env.threshold) && env.works(st.calls)
    ensures Inv(events + [e], after, env)
  {
    AloneThenFlush(heap, events, st, e, Copy(e, env.preview(e, e.content)), env, Previewed(st, e, env), after);
  }

  lemma TextKeepsInv(heap: nat -> Event, events: seq<Event>, st: State, e: Event, env: Env, after: State)
    requires Inv(events, st, env) && Live(heap, events + [e]) && after == Step(st, e, env) && IsText(e)
    requires !(Oversized(e, e.content, env.threshold) && env.works(st.calls))
    ensures Inv(events + [e], after, env)
  {
    var grown := Grown(st, e, env);
    JoinsBatch(events, st, e, env, grown);
    if Total(grown.batch) > env.budget { FlushingKeepsInv(heap, events + [e], grown, env, after); }
  }

  lemma StepKeepsInv(heap: nat -> Event, events: seq<Event>, st: State, e: Event, env: Env, after: State)
    requires Inv(events, st, env) && Live(heap, events + [e]) && after == Step(st, e, env)
    ensures Inv(events + [e], after, env)
  {
    if e.kind == NotObservation {
      OtherKeepsInv(heap, events, st, e, env, after);
    } else if e.content == "" {
      AloneThenFlush(heap, events, st, e, e, env, Beside(st, e), after);
    } else if Oversized(e, e.content, env.threshold) && env.works(st.calls) {
      AtOnceKeepsInv(heap, events, st, e, env, after);
    } else {
      TextKeepsInv(heap, events, st, e, env, after);
    }
  }

  lemma {:induction false} FoldInv(heap: nat -> Event, events: seq<Event>, env: Env)
    requires Live(heap, events)
    ensures Inv(events, Fold(events, env), env)
  {
    if events != [] {
      var n := |events| - 1;
      assert events == events[..n] + [events[n]];
      LiveInPrefix(heap, events[..n], events[n]);
      FoldInv(heap, events[..n], env);
      StepKeepsInv(heap, events[..n], Fold(events[..n], env), events[n], env, Fold(events, env));
    }
  }

  /** The pass settles every position: the batches are stretches of consecutive non-empty observations,
      disjoint and in order, each shrunk as it should be, and everything else is left alone or was
      replaced at once. */
  lemma BudgetSettlesEverything(heap: nat -> Event, events: seq<Event>, env: Env)
    requires Live(heap, events)
    ensures var out := Budgeted(events, env); Settled(events, out.result, out.flushed, env, |events|)
  {
    FoldInv(heap, events, env);
    var st, out := Fold(events, env), Budgeted(events, env);
    FlushingKeepsInv(heap, events, st, env, out);
  }

  /** `r` is `e`, or, for a non-empty observation, a copy of it with the same or a replaced content. */
  predicate KeepsShape(e: Event, r: Event, env: Env) {
    || r == e
    || (&& e.content != "" && e.kind != NotObservation && r == Event(e.ref, true, e.id, e.kind, r.content)
        && (Changed(e, r) ==> e.kind == Persistable && Replaced(e, r, env)))
  }

  /** The shape is kept: as many events, in order, each the same or a copy whose content is the old one,
      its preview, or what is kept of it; and only a non-empty observation is copied. */
  lemma BudgetKeepsShape(heap: nat -> Event, events: seq<Event>, env: Env)
    requires Live(heap, events)
    ensures var result := Budgeted(events, env).result;
      |result| == |events| && forall p :: 0 <= p < |events| ==> KeepsShape(events[p], result[p], env)
  {
    var out := Budgeted(events, env);
    BudgetSettlesEverything(heap, events, env);
    forall p | 0 <= p < |events| ensures KeepsShape(events[p], out.result[p], env) {
      assert SettledAt(events, out.result, out.flushed, env, p);
      if Covered(out.flushed, p) { CoveredIsShrunk(events, out.result, out.flushed, env, |events|, p); }
    }
  }

  lemma {:induction false} CoveredIsShrunk(events: seq<Event>, result: seq<Event>, flushed: seq<Span>, env: Env,
                                           n: nat, p: nat)
    requires Batches(events, result, flushed, env, n) && Covered(flushed, p) && n <= |events| == |result|
    ensures p < n && ShrunkAt(events[p], result[p], env)
  {
    if !(Last(flushed).lo <= p < Last(flushed).hi) {
      CoveredIsShrunk(events, result, flushed[..|flushed| - 1], env, Last(flushed).lo, p);
    }
  }
}
