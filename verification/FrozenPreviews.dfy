/** Previews frozen when an output is emitted: each later prompt shows the same text for the event. */
module FrozenPreviews {
  import opened PyText
  import opened ToolResultBudget

  /** One emission: the event, its preview, and whether writing its output to disk works. */
  datatype Emission = Emission(event: Event, preview: string, works: bool)

  /** What is frozen: an output of a persistable kind, of the threshold or more, whose event has an id. */
  predicate Freezes(m: Emission, threshold: int) {
    && m.event.kind == Persistable && m.event.content != "" && |m.event.content| >= threshold
    && m.event.id.Some? && m.works
  }

  function Emit(frozen: map<int, string>, m: Emission, threshold: int): map<int, string> {
    if m.event.content == "" || m.event.id == None || !Oversized(m.event, m.event.content, threshold) then frozen
    else if m.event.id.value in frozen || !m.works then frozen
    else frozen[m.event.id.value := m.preview]
  }

  function EmitAll(emissions: seq<Emission>, threshold: int): map<int, string> {
    if emissions == [] then map[]
    else Emit(EmitAll(emissions[..|emissions| - 1], threshold), emissions[|emissions| - 1], threshold)
  }

  function Shown(e: Event, frozen: map<int, string>): Event {
    if e.id.Some? && e.id.value in frozen then Copy(e, frozen[e.id.value]) else e
  }

  function ShownAll(events: seq<Event>, frozen: map<int, string>): (r: seq<Event>)
    ensures |r| == |events| && forall i :: 0 <= i < |r| ==> r[i] == Shown(events[i], frozen)
  {
    seq(|events|, i requires 0 <= i < |events| => Shown(events[i], frozen))
  }

  /** The state's replacement map. */
  class ReplacementStore {
    const threshold: int
    var replacements: map<int, string>

    constructor (threshold: int)
      ensures this.threshold == threshold && replacements == map[]
    {
      this.threshold, replacements := threshold, map[];
    }

    method PersistToolResultOnObservation(event: Event, preview: string, works: bool)
      modifies this
      ensures replacements == Emit(old(replacements), Emission(event, preview, works), threshold)
    {
      if event.kind == NotObservation { return; }
      if event.content == "" { return; }
      if event.id == None { return; }
      if !Oversized(event, event.content, threshold) { return; }
      var key := event.id.value;
      if key in replacements { return; }
      if works { replacements := replacements[key := preview]; }
    }

    method ApplyFrozenToolReplacements(events: seq<Event>) returns (result: seq<Event>)
      ensures result == ShownAll(events, replacements)
    {
      if replacements == map[] { return events; }
      result := [];
      for i := 0 to |events|
        invariant |result| == i && forall j :: 0 <= j < i ==> result[j] == Shown(events[j], replacements)
      {
        var event := events[i];
        if event.id.Some? && event.id.value in replacements {
          result := result + [Copy(event, replacements[event.id.value])];
          continue;
        }
        result := result + [event];
      }
    }
  }

  /** The first emission with this id that freezes. */
  predicate FirstFor(emissions: seq<Emission>, i: nat, id: int, threshold: int) {
    && i < |emissions| && Freezes(emissions[i], threshold) && emissions[i].event.id == Some(id)
    && forall j :: 0 <= j < i ==> !(Freezes(emissions[j], threshold) && emissions[j].event.id == Some(id))
  }

  lemma FirstOfPrefix(emissions: seq<Emission>, i: nat, id: int, threshold: int)
    requires emissions != [] && i < |emissions| - 1
    ensures FirstFor(emissions[..|emissions| - 1], i, id, threshold) <==> FirstFor(emissions, i, id, threshold)
  {
    var before := emissions[..|emissions| - 1];
    forall j | 0 <= j <= i ensures before[j] == emissions[j] {}
  }

  /** Over every run the text frozen for an id is the preview of the first emission that could freeze it. */
  lemma {:induction false} FirstPreviewIsFrozen(emissions: seq<Emission>, id: int, threshold: int)
    ensures id in EmitAll(emissions, threshold) <==> exists i: nat :: FirstFor(emissions, i, id, threshold)
    ensures forall i: nat :: FirstFor(emissions, i, id, threshold) ==>
      id in EmitAll(emissions, threshold) && EmitAll(emissions, threshold)[id] == emissions[i].preview
  {
    if emissions != [] {
      var n := |emissions| - 1;
      var before, last := emissions[..n], emissions[n];
      FirstPreviewIsFrozen(before, id, threshold);
      forall i: nat | i < n ensures FirstFor(before, i, id, threshold) <==> FirstFor(emissions, i, id, threshold) {
        FirstOfPrefix(emissions, i, id, threshold);
      }
      if id in EmitAll(before, threshold) {
        var i: nat :| FirstFor(before, i, id, threshold);
        assert FirstFor(emissions, i, id, threshold);
      } else if Freezes(last, threshold) && last.event.id == Some(id) {
        NotFrozenYet(before, id, threshold);
        assert FirstFor(emissions, n, id, threshold);
      }
    }
  }

  lemma {:induction false} NotFrozenYet(emissions: seq<Emission>, id: int, threshold: int)
    requires id !in EmitAll(emissions, threshold)
    ensures forall j :: 0 <= j < |emissions| ==>
      !(Freezes(emissions[j], threshold) && emissions[j].event.id == Some(id))
  {
    if emissions != [] {
      var n := |emissions| - 1;
      NotFrozenYet(emissions[..n], id, threshold);
      forall j | 0 <= j < n ensures emissions[..n][j] == emissions[j] {}
    }
  }

  lemma {:induction false} FrozenStays(emissions: seq<Emission>, later: seq<Emission>, id: int, threshold: int)
    requires id in EmitAll(emissions, threshold)
    ensures id in EmitAll(emissions + later, threshold)
    ensures EmitAll(emissions + later, threshold)[id] == EmitAll(emissions, threshold)[id]
  {
    if later == [] {
      assert emissions + later == emissions;
    } else {
      var n := |later| - 1;
      FrozenStays(emissions, later[..n], id, threshold);
      assert (emissions + later)[..|emissions| + n] == emissions + later[..n];
    }
  }

  /** Every prompt shows an event with the preview of the first emission that froze its id, and otherwise as
      it is. */
  lemma PromptShowsFirstPreview(emissions: seq<Emission>, events: seq<Event>, threshold: int, i: nat)
    requires i < |events|
    ensures var e, shown := events[i], ShownAll(events, EmitAll(emissions, threshold))[i];
      && (forall j: nat :: e.id.Some? && FirstFor(emissions, j, e.id.value, threshold) ==>
            shown == Event(e.ref, true, e.id, e.kind, emissions[j].preview))
      && ((e.id.Some? ==> !exists j: nat :: FirstFor(emissions, j, e.id.value, threshold)) ==> shown == e)
  {
    if events[i].id.Some? { FirstPreviewIsFrozen(emissions, events[i].id.value, threshold); }
  }

  /** Prompts are stable: whatever is emitted later, an event shown with a frozen preview is shown with
      it in every later prompt too; and showing a shown list again changes nothing. */
  lemma PromptsAreStable(emissions: seq<Emission>, later: seq<Emission>, events: seq<Event>, threshold: int)
    ensures var now, then' := EmitAll(emissions, threshold), EmitAll(emissions + later, threshold);
      && (forall i :: 0 <= i < |events| && ShownAll(events, now)[i] != events[i] ==>
           ShownAll(events, then')[i] == ShownAll(events, now)[i])
      && ShownAll(ShownAll(events, now), now) == ShownAll(events, now)
  {
    var now := EmitAll(emissions, threshold);
    forall i | 0 <= i < |events| && ShownAll(events, now)[i] != events[i]
      ensures ShownAll(events, EmitAll(emissions + later, threshold))[i] == ShownAll(events, now)[i]
    {
      FrozenStays(emissions, later, events[i].id.value, threshold);
    }
  }
}
