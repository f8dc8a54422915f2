/** The condensed view of the event log: pruning, the inserted summary, and pending condensation requests. */
module CondensedView {
  import opened PyText

  /** What a condensation prunes: the listed ids, or a range with both ends. */
  datatype Pruned = Ids(ids: seq<int>) | IdRange(first: int, last: int)

  datatype Event =
    | Plain(id: int, text: string)
    | Condensation(id: int, pruned: Pruned, summary: Option<string>, summaryOffset: Option<int>, isPrewarmed: bool)
    | CondensationRequest(id: int)
    | SummaryObservation(id: int, content: string, isPrewarmed: bool)

  /** The id of an event that the log has not numbered. */
  const INVALID_ID := -1

  datatype View = View(events: seq<Event>, unhandledRequest: bool)

  datatype SummaryInfo = SummaryInfo(summary: string, offset: int, isPrewarmed: bool)

  function Range(first: int, last: int): (r: set<int>)
    ensures forall i :: i in r <==> first <= i <= last
    decreases last - first
  {
    if first > last then {} else {first} + Range(first + 1, last)
  }

  function PrunedIds(p: Pruned): set<int> {
    match p case Ids(ids) => set i | i in ids case IdRange(first, last) => Range(first, last)
  }

  /** The ids one event takes out of the view. */
  function Removes(e: Event): set<int> {
    match e
    case Condensation(id, p, _, _, _) => PrunedIds(p) + {id}
    case CondensationRequest(id) => {id}
    case _ => {}
  }

  function AllRemoved(events: seq<Event>): set<int> {
    if events == [] then {} else AllRemoved(events[..|events| - 1]) + Removes(events[|events| - 1])
  }

  function Keep(events: seq<Event>, removed: set<int>): seq<Event> {
    if events == [] then []
    else
      var before, e := Keep(events[..|events| - 1], removed), events[|events| - 1];
      if e.id in removed then before else before + [e]
  }

  /** A condensation that carries a summary and says where it goes. */
  predicate Summarises(e: Event) { e.Condensation? && e.summary.Some? && e.summaryOffset.Some? }

  function LatestSummary(events: seq<Event>): Option<SummaryInfo> {
    if events == [] then None
    else
      var e := events[|events| - 1];
      if Summarises(e) then Some(SummaryInfo(e.summary.value, e.summaryOffset.value, e.isPrewarmed))
      else LatestSummary(events[..|events| - 1])
  }

  function Unhandled(events: seq<Event>): bool {
    if events == [] then false
    else
      var e := events[|events| - 1];
      if e.Condensation? then false else if e.CondensationRequest? then true else Unhandled(events[..|events| - 1])
  }

  function Clamp(offset: int, n: nat): nat { if offset < 0 then 0 else if offset < n then offset else n }

  /** The summary, put where it belongs among the kept events; offsets beyond them are clamped. */
  function WithSummary(kept: seq<Event>, info: Option<SummaryInfo>): seq<Event> {
    match info
    case None => kept
    case Some(s) =>
      var at := Clamp(s.offset, |kept|);
      kept[..at] + [SummaryObservation(INVALID_ID, s.summary, s.isPrewarmed)] + kept[at..]
  }

  /** The view as a batch computation over the whole log. */
  function FromEvents(events: seq<Event>): View {
    View(WithSummary(Keep(events, AllRemoved(events)), LatestSummary(events)), Unhandled(events))
  }

  method CollectPrunedEventIds(events: seq<Event>) returns (prunedIds: set<int>)
    ensures prunedIds == AllRemoved(events)
  {
    prunedIds := {};
    for i := 0 to |events|
      invariant prunedIds == AllRemoved(events[..i])
    {
      assert events[..i + 1][..i] == events[..i];
      var event := events[i];
      if event.Condensation? {
        prunedIds := prunedIds + PrunedIds(event.pruned) + {event.id};
      }
      if event.CondensationRequest? {
        prunedIds := prunedIds + {event.id};
      }
    }
    assert events[..|events|] == events;
  }

  method CheckUnhandledCondensationRequest(events: seq<Event>) returns (unhandled: bool)
    ensures unhandled == Unhandled(events)
  {
    assert events[..|events|] == events;
    for i := |events| downto 0
      invariant Unhandled(events) == Unhandled(events[..i])
    {
      assert events[..i + 1][..i] == events[..i];
      if events[i].Condensation? { return false; }
      if events[i].CondensationRequest? { return true; }
    }
    return false;
  }

  method ViewFromEvents(events: seq<Event>) returns (view: View)
    ensures view == FromEvents(events)
  {
    var prunedIds := CollectPrunedEventIds(events);
    var kept := Keep(events, prunedIds);
    var info := LatestSummary(events);
    if info.Some? {
      var clamped := Clamp(info.value.offset, |kept|);
      var s := info.value;
      kept := kept[..clamped] + [SummaryObservation(INVALID_ID, s.summary, s.isPrewarmed)] + kept[clamped..];
    }
    var unhandled := CheckUnhandledCondensationRequest(events);
    view := View(kept, unhandled);
  }

  // ----- the incremental fold ----------------------------------------------------------

  /** What is enough to remember of a log to go on viewing it. */
  datatype Fold = Fold(kept: seq<Event>, removed: set<int>, info: Option<SummaryInfo>, unhandled: bool)

  /** One event at a time: pruning looks back over what was kept, and ahead through the removed ids. */
  function FoldStep(f: Fold, e: Event): Fold {
    match e
    case Condensation(_, _, _, _, _) =>
      var removed := f.removed + Removes(e);
      Fold(Keep(f.kept, removed), removed,
           if Summarises(e) then Some(SummaryInfo(e.summary.value, e.summaryOffset.value, e.isPrewarmed))
            else f.info, false)
    case CondensationRequest(id) =>
      Fold(Keep(f.kept, f.removed + {id}), f.removed + {id}, f.info, true)
    case _ =>
      Fold(if e.id in f.removed then f.kept else f.kept + [e], f.removed, f.info, f.unhandled)
  }

  function FoldLog(events: seq<Event>): Fold {
    if events == [] then Fold([], {}, None, false)
    else FoldStep(FoldLog(events[..|events| - 1]), events[|events| - 1])
  }

  function Show(f: Fold): View { View(WithSummary(f.kept, f.info), f.unhandled) }

  lemma {:induction false} KeepTwice(events: seq<Event>, a: set<int>, b: set<int>)
    requires a <= b
    ensures Keep(Keep(events, a), b) == Keep(events, b)
  {
    if events != [] {
      var n := |events| - 1;
      KeepTwice(events[..n], a, b);
      var before := Keep(events[..n], a);
      if events[n].id !in a { assert (before + [events[n]])[..|before|] == before; }
    }
  }

  lemma {:induction false} FoldInvariant(events: seq<Event>)
    ensures FoldLog(events)
         == Fold(Keep(events, AllRemoved(events)), AllRemoved(events), LatestSummary(events), Unhandled(events))
  {
    if events != [] {
      var n := |events| - 1;
      FoldInvariant(events[..n]);
      var before := AllRemoved(events[..n]);
      KeepTwice(events[..n], before, before + Removes(events[n]));
      if Removes(events[n]) == {} { assert before + {} == before; }
    }
  }

  /** The batch view refines the fold, for every log. */
  lemma BatchRefinesFold(events: seq<Event>)
    ensures FromEvents(events) == Show(FoldLog(events))
  {
    FoldInvariant(events);
  }

  // ----- appending and viewing again ---------------------------------------------------

  predicate SummaryInside(events: seq<Event>) {
    match LatestSummary(events)
    case None => true
    case Some(s) => s.offset <= |Keep(events, AllRemoved(events))|
  }

  /** A new plain event extends the view by itself exactly when it was not pruned in advance and the
      latest summary is placed within the kept events; otherwise clamping moves the summary behind it. */
  lemma AppendExtendsView(events: seq<Event>, e: Event)
    requires e.Plain?
    ensures FromEvents(events + [e]).events == FromEvents(events).events + [e]
       <==> e.id !in AllRemoved(events) && SummaryInside(events)
    ensures FromEvents(events + [e]).unhandledRequest == FromEvents(events).unhandledRequest
  {
    var log := events + [e];
    assert log[..|events|] == events && log[|events|] == e;
    assert AllRemoved(log) == AllRemoved(events);
    var kept := Keep(events, AllRemoved(events));
    if e.id in AllRemoved(events) {
      assert |FromEvents(log).events| == |FromEvents(events).events|;
    } else {
      assert Keep(log, AllRemoved(log)) == kept + [e];
      SummaryUnderAppend(kept, LatestSummary(events), e);
    }
  }

  lemma SummaryUnderAppend(kept: seq<Event>, info: Option<SummaryInfo>, e: Event)
    requires e.Plain?
    ensures WithSummary(kept + [e], info) == WithSummary(kept, info) + [e]
       <==> (info.Some? ==> info.value.offset <= |kept|)
  {
    if info.Some? {
      var at := Clamp(info.value.offset, |kept|);
      if info.value.offset <= |kept| {
        assert (kept + [e])[..at] == kept[..at] && (kept + [e])[at..] == kept[at..] + [e];
      } else {
        assert WithSummary(kept + [e], info)[|kept|] == e;
        assert (WithSummary(kept, info) + [e])[|kept|].SummaryObservation?;
      }
    }
  }

  predicate NoControl(events: seq<Event>) {
    forall i :: 0 <= i < |events| ==> !events[i].Condensation? && !events[i].CondensationRequest?
  }

  lemma {:induction false} ControlIsRemoved(events: seq<Event>, i: nat)
    requires i < |events| && (events[i].Condensation? || events[i].CondensationRequest?)
    ensures events[i].id in AllRemoved(events)
  {
    if i < |events| - 1 { ControlIsRemoved(events[..|events| - 1], i); }
  }

  lemma {:induction false} KeptIsInLog(events: seq<Event>, removed: set<int>, i: nat)
    requires i < |Keep(events, removed)|
    ensures Keep(events, removed)[i] in events && Keep(events, removed)[i].id !in removed
  {
    var n := |events| - 1;
    if i < |Keep(events[..n], removed)| { KeptIsInLog(events[..n], removed, i); }
  }

  lemma {:induction false} NoControlNoChange(events: seq<Event>)
    requires NoControl(events)
    ensures AllRemoved(events) == {} && LatestSummary(events) == None && !Unhandled(events)
    ensures Keep(events, {}) == events
  {
    if events != [] {
      NoControlNoChange(events[..|events| - 1]);
      assert events == events[..|events| - 1] + [events[|events| - 1]];
    }
  }

  /** A view holds no condensations and no requests, and viewing its events again gives them back. */
  lemma ViewingAgain(events: seq<Event>)
    ensures NoControl(FromEvents(events).events)
    ensures FromEvents(FromEvents(events).events) == View(FromEvents(events).events, false)
  {
    var removed := AllRemoved(events);
    var kept := Keep(events, removed);
    forall i | 0 <= i < |kept| ensures !kept[i].Condensation? && !kept[i].CondensationRequest? {
      KeptIsInLog(events, removed, i);
      var j :| 0 <= j < |events| && events[j] == kept[i];
      if events[j].Condensation? || events[j].CondensationRequest? { ControlIsRemoved(events, j); }
    }
    NoControlNoChange(FromEvents(events).events);
  }

  /** A request that no condensation follows. */
  predicate Open(events: seq<Event>, i: nat) {
    i < |events| && events[i].CondensationRequest? && forall j :: i < j < |events| ==> !events[j].Condensation?
  }

  lemma OpenBefore(events: seq<Event>, e: Event, i: nat)
    requires i < |events|
    ensures Open(events + [e], i) <==> Open(events, i) && !e.Condensation?
  {
    var all := events + [e];
    assert all[|events|] == e;
    forall j | 0 <= j < |events| ensures all[j] == events[j] {}
  }

  /** A request is unhandled exactly when no condensation follows it. */
  lemma {:induction false} UnhandledMeaning(events: seq<Event>)
    ensures Unhandled(events) <==> exists i: nat :: Open(events, i)
  {
    if events != [] {
      var n := |events| - 1;
      var e := events[n];
      assert events == events[..n] + [e];
      UnhandledMeaning(events[..n]);
      forall i: nat | i < n ensures Open(events, i) <==> Open(events[..n], i) && !e.Condensation? {
        OpenBefore(events[..n], e, i);
      }
      if e.CondensationRequest? {
        assert Open(events, n);
      } else if Unhandled(events[..n]) && !e.Condensation? {
        var i: nat :| Open(events[..n], i);
        assert Open(events, i);
      }
    }
  }

  lemma CountSnoc<T>(s: seq<T>, x: T, e: T)
    ensures multiset(s + [x])[e] == multiset(s)[e] + if x == e then 1 else 0
  {
  }

  lemma KeepSnoc(events: seq<Event>, e: Event, removed: set<int>)
    ensures Keep(events + [e], removed) == Keep(events, removed) + if e.id in removed then [] else [e]
  {
    assert (events + [e])[..|events|] == events;
  }

  /** Of each event as many are kept as there are, or none, and in the order of the log. */
  lemma {:induction false} KeepIsFilter(events: seq<Event>, removed: set<int>, e: Event)
    ensures multiset(Keep(events, removed))[e] == (if e.id in removed then 0 else multiset(events)[e])
    ensures events == [] || Keep(events, removed) == Keep(events[..|events| - 1], removed)
                         || Keep(events, removed) == Keep(events[..|events| - 1], removed) + [events[|events| - 1]]
  {
    if events != [] {
      var front, last := events[..|events| - 1], events[|events| - 1];
      assert events == front + [last];
      KeepIsFilter(front, removed, e);
      KeepSnoc(front, last, removed);
      CountSnoc(front, last, e);
      CountSnoc(Keep(front, removed), last, e);
    }
  }

  // ----- the view told by the log ------------------------------------------------------

  /** The event takes the id out of the view: it is a condensation that lists it, has it in its range, or
      carries it, or a request that carries it. */
  predicate TakesOut(e: Event, id: int) {
    match e
    case Condensation(own, Ids(ids), _, _, _) => own == id || id in ids
    case Condensation(own, IdRange(first, last), _, _, _) => own == id || first <= id <= last
    case CondensationRequest(own) => own == id
    case Plain(_, _) => false
    case SummaryObservation(_, _, _) => false
  }

  predicate TakenOut(events: seq<Event>, id: int) { exists i :: 0 <= i < |events| && TakesOut(events[i], id) }

  lemma {:induction false} RemovedMeaning(events: seq<Event>, id: int)
    ensures id in AllRemoved(events) <==> TakenOut(events, id)
  {
    if events != [] {
      var n := |events| - 1;
      RemovedMeaning(events[..n], id);
      assert TakesOut(events[n], id) <==> id in Removes(events[n]);
      if i :| 0 <= i < |events| && TakesOut(events[i], id) {
        if i < n { assert TakesOut(events[..n][i], id); }
      }
      if i :| 0 <= i < n && TakesOut(events[..n][i], id) { assert TakesOut(events[i], id); }
    }
  }

  /** The summary that the view shows: that of the last condensation that has one and says where it goes. */
  predicate LastSummary(events: seq<Event>, i: nat) {
    && i < |events| && events[i].Condensation? && events[i].summary.Some? && events[i].summaryOffset.Some?
    && forall j :: i < j < |events| ==>
         !(events[j].Condensation? && events[j].summary.Some? && events[j].summaryOffset.Some?)
  }

  lemma {:induction false} LatestIsLast(events: seq<Event>, i: nat)
    requires LastSummary(events, i)
    ensures LatestSummary(events)
         == Some(SummaryInfo(events[i].summary.value, events[i].summaryOffset.value, events[i].isPrewarmed))
  {
    var n := |events| - 1;
    if i < n {
      assert forall j :: i < j < n ==> events[..n][j] == events[j];
      LatestIsLast(events[..n], i);
    }
  }

  lemma {:induction false} SomeLast(events: seq<Event>) returns (i: nat)
    ensures LatestSummary(events).Some? ==> LastSummary(events, i)
  {
    i := 0;
    if events != [] && LatestSummary(events).Some? {
      var n := |events| - 1;
      if Summarises(events[n]) { return n; }
      i := SomeLast(events[..n]);
      assert forall j :: i < j < n ==> events[..n][j] == events[j];
    }
  }

  lemma MultisetOfInsert(kept: seq<Event>, at: nat, o: Event)
    requires at <= |kept|
    ensures multiset(kept[..at] + [o] + kept[at..]) == multiset(kept) + multiset{o}
  {
    assert kept == kept[..at] + kept[at..];
  }

  /** A plain event is shown as often as the log holds it, unless some event of the log, before or behind
      it, takes its id out; then it is not shown at all. */
  lemma PlainIsShownIff(events: seq<Event>, e: Event)
    requires e.Plain?
    ensures multiset(FromEvents(events).events)[e] == if TakenOut(events, e.id) then 0 else multiset(events)[e]
  {
    var kept := Keep(events, AllRemoved(events));
    RemovedMeaning(events, e.id);
    KeepIsFilter(events, AllRemoved(events), e);
    match LatestSummary(events)
    case None =>
    case Some(info) =>
      var o := SummaryObservation(INVALID_ID, info.summary, info.isPrewarmed);
      MultisetOfInsert(kept, Clamp(info.offset, |kept|), o);
  }

  /** The view is what was kept, with the last summary put at its offset, or at the nearest end when the
      offset lies outside. */
  lemma ViewMeaning(events: seq<Event>)
    ensures var kept := Keep(events, AllRemoved(events));
      && ((forall i: nat :: !LastSummary(events, i)) ==> FromEvents(events).events == kept)
      && forall i: nat :: LastSummary(events, i) ==>
           var offset := events[i].summaryOffset.value;
           var at := if offset < 0 then 0 else if offset > |kept| then |kept| else offset;
           FromEvents(events).events
             == kept[..at] + [SummaryObservation(-1, events[i].summary.value, events[i].isPrewarmed)] + kept[at..]
  {
    forall i: nat | LastSummary(events, i)
      ensures LatestSummary(events)
           == Some(SummaryInfo(events[i].summary.value, events[i].summaryOffset.value, events[i].isPrewarmed))
    {
      LatestIsLast(events, i);
    }
    if LatestSummary(events).Some? { var i := SomeLast(events); }
  }
}
