/** Trimming a transcript to matched pairs of tool calls and tool responses. */
module ToolCallFilter {
  import opened PyText
  import opened ToolCalls

  function IdsCalled(m: Message): set<string> {
    if m.role.Assistant? then set c | c in CallsOf(m) && c.id != "" :: c.id else {}
  }

  function IdAnswered(m: Message): set<string> {
    if Answers(m) then {m.toolCallId.value} else {}
  }

  function CollectToolCallIds(messages: seq<Message>): set<string> {
    if messages == [] then {}
    else CollectToolCallIds(messages[..|messages| - 1]) + IdsCalled(messages[|messages| - 1])
  }

  function CollectToolResponseIds(messages: seq<Message>): set<string> {
    if messages == [] then {}
    else CollectToolResponseIds(messages[..|messages| - 1]) + IdAnswered(messages[|messages| - 1])
  }

  /** The calls whose responses are present. */
  function Matched(calls: seq<Call>, responseIds: set<string>): seq<Call> {
    if calls == [] then []
    else
      var before, c := Matched(calls[..|calls| - 1], responseIds), calls[|calls| - 1];
      if c.id in responseIds then before + [c] else before
  }

  predicate AllToolCallsMatch(m: Message, responseIds: set<string>) {
    CallsOf(m) == [] || (forall c :: c in CallsOf(m) ==> c.id in responseIds) || Matched(CallsOf(m), responseIds) != []
  }

  predicate ShouldIncludeMessage(m: Message, callIds: set<string>, responseIds: set<string>) {
    if Answers(m) then m.toolCallId.value in callIds
    else if CallsTools(m) then AllToolCallsMatch(m, responseIds)
    else true
  }

  /** The message with its unmatched calls removed; None where the program raises StopIteration. */
  function MaybeTrimToolCalls(m: Message, responseIds: set<string>): Option<Message> {
    if !CallsTools(m) then Some(m)
    else
      var matched := Matched(CallsOf(m), responseIds);
      if |matched| == |CallsOf(m)| then Some(m)
      else if matched == [] then None
      else Some(m.(toolCalls := Some(matched)))
  }

  /** Filtering against given id sets; None if trimming raises. */
  function FilterWith(messages: seq<Message>, callIds: set<string>, responseIds: set<string>): Option<seq<Message>> {
    if messages == [] then Some([])
    else
      var before, m := FilterWith(messages[..|messages| - 1], callIds, responseIds), messages[|messages| - 1];
      if before == None || !ShouldIncludeMessage(m, callIds, responseIds) then before
      else match MaybeTrimToolCalls(m, responseIds) case Some(t) => Some(before.value + [t]) case None => None
  }

  function FilterUnmatchedToolCalls(messages: seq<Message>): Option<seq<Message>> {
    FilterWith(messages, CollectToolCallIds(messages), CollectToolResponseIds(messages))
  }

  // ----- matching ----------------------------------------------------------------------

  lemma {:induction false} MatchedMeaning(calls: seq<Call>, ids: set<string>)
    ensures forall c :: c in Matched(calls, ids) <==> c in calls && c.id in ids
    ensures |Matched(calls, ids)| <= |calls|
    ensures |Matched(calls, ids)| == |calls| <==> (forall c :: c in calls ==> c.id in ids)
    ensures |Matched(calls, ids)| == |calls| ==> Matched(calls, ids) == calls
  {
    if calls != [] {
      var n := |calls| - 1;
      MatchedMeaning(calls[..n], ids);
      assert calls == calls[..n] + [calls[n]];
    }
  }

  /** Trimming raises exactly for a message that calls tools and has no response for any of its calls. */
  lemma TrimRaisesIff(m: Message, responseIds: set<string>)
    ensures MaybeTrimToolCalls(m, responseIds) == None
       <==> CallsTools(m) && CallsOf(m) != [] && forall c :: c in CallsOf(m) ==> c.id !in responseIds
  {
    MatchedMeaning(CallsOf(m), responseIds);
    if CallsOf(m) != [] { assert CallsOf(m)[0] in CallsOf(m); }
    if Matched(CallsOf(m), responseIds) != [] {
      assert Matched(CallsOf(m), responseIds)[0] in Matched(CallsOf(m), responseIds);
    }
  }

  /** A message that is included has a call left, so trimming it never raises. */
  lemma IncludedTrims(m: Message, callIds: set<string>, responseIds: set<string>)
    requires ShouldIncludeMessage(m, callIds, responseIds)
    ensures MaybeTrimToolCalls(m, responseIds).Some?
  {
    MatchedMeaning(CallsOf(m), responseIds);
  }

  /** The StopIteration branch is unreachable: filtering always yields a transcript. */
  lemma {:induction false} FilterNeverRaises(messages: seq<Message>, callIds: set<string>, responseIds: set<string>)
    ensures FilterWith(messages, callIds, responseIds).Some?
  {
    if messages != [] {
      var n := |messages| - 1;
      FilterNeverRaises(messages[..n], callIds, responseIds);
      if ShouldIncludeMessage(messages[n], callIds, responseIds) {
        IncludedTrims(messages[n], callIds, responseIds);
      }
    }
  }

  /** What filtering yields. */
  function Filtered(messages: seq<Message>): seq<Message> {
    FilterNeverRaises(messages, CollectToolCallIds(messages), CollectToolResponseIds(messages));
    FilterUnmatchedToolCalls(messages).value
  }

  // ----- pairing-closed transcripts ----------------------------------------------------

  /** Every call that is left has a response, and every response answers a call. */
  predicate Settled(m: Message, callIds: set<string>, responseIds: set<string>) {
    && (Answers(m) ==> m.toolCallId.value in callIds)
    && CallsAnswered(m, responseIds)
  }

  predicate CallsAnswered(m: Message, responseIds: set<string>) {
    m.role.Assistant? ==> forall c :: c in CallsOf(m) ==> c.id in responseIds
  }

  predicate AllSettled(messages: seq<Message>, callIds: set<string>, responseIds: set<string>) {
    forall i :: 0 <= i < |messages| ==> Settled(messages[i], callIds, responseIds)
  }

  predicate PairingClosed(messages: seq<Message>) {
    AllSettled(messages, CollectToolCallIds(messages), CollectToolResponseIds(messages))
  }

  lemma {:induction false} ResponseIdsAreNotEmpty(messages: seq<Message>)
    ensures "" !in CollectToolResponseIds(messages)
  {
    if messages != [] { ResponseIdsAreNotEmpty(messages[..|messages| - 1]); }
  }

  /** What filtering makes of one message: nothing, or the message with its calls trimmed. */
  function FilterOne(m: Message, callIds: set<string>, responseIds: set<string>): seq<Message> {
    if !ShouldIncludeMessage(m, callIds, responseIds) then []
    else
      IncludedTrims(m, callIds, responseIds);
      [MaybeTrimToolCalls(m, responseIds).value]
  }

  lemma FilterWithStep(messages: seq<Message>, m: Message, callIds: set<string>, responseIds: set<string>)
    ensures FilterWith(messages, callIds, responseIds).Some? && FilterWith(messages + [m], callIds, responseIds).Some?
    ensures FilterWith(messages + [m], callIds, responseIds).value
         == FilterWith(messages, callIds, responseIds).value + FilterOne(m, callIds, responseIds)
  {
    FilterNeverRaises(messages, callIds, responseIds);
    FilterNeverRaises(messages + [m], callIds, responseIds);
    assert (messages + [m])[..|messages|] == messages;
  }

  lemma {:induction false} CollectConcat(a: seq<Message>, b: seq<Message>)
    ensures CollectToolCallIds(a + b) == CollectToolCallIds(a) + CollectToolCallIds(b)
    ensures CollectToolResponseIds(a + b) == CollectToolResponseIds(a) + CollectToolResponseIds(b)
  {
    if b == [] {
      assert a + b == a;
    } else {
      CollectConcat(a, b[..|b| - 1]);
      assert (a + b)[..|a + b| - 1] == a + b[..|b| - 1];
    }
  }

  lemma CollectOne(m: Message)
    ensures CollectToolCallIds([m]) == IdsCalled(m) && CollectToolResponseIds([m]) == IdAnswered(m)
  {
    assert [m][..0] == [];
  }

  lemma TrimmedCalls(m: Message, callIds: set<string>, responseIds: set<string>)
    requires "" !in responseIds && ShouldIncludeMessage(m, callIds, responseIds)
    ensures MaybeTrimToolCalls(m, responseIds).Some?
    ensures var t := MaybeTrimToolCalls(m, responseIds).value;
      IdsCalled(t) == IdsCalled(m) * responseIds && CallsAnswered(t, responseIds)
  {
    MatchedMeaning(CallsOf(m), responseIds);
    IncludedTrims(m, callIds, responseIds);
    var t := MaybeTrimToolCalls(m, responseIds).value;
    if CallsTools(m) {
      assert forall c :: c in CallsOf(t) <==> c in CallsOf(m) && c.id in responseIds;
    }
  }

  lemma OneFiltered(m: Message, callIds: set<string>, responseIds: set<string>)
    requires "" !in responseIds
    ensures var out := FilterOne(m, callIds, responseIds);
      && CollectToolCallIds(out) == IdsCalled(m) * responseIds
      && CollectToolResponseIds(out) == IdAnswered(m) * callIds
      && forall i :: 0 <= i < |out| ==> CallsAnswered(out[i], responseIds)
  {
    if ShouldIncludeMessage(m, callIds, responseIds) {
      TrimmedCalls(m, callIds, responseIds);
      CollectOne(MaybeTrimToolCalls(m, responseIds).value);
    } else {
      MatchedMeaning(CallsOf(m), responseIds);
    }
  }

  lemma {:induction false} FilterWithIds(messages: seq<Message>, callIds: set<string>, responseIds: set<string>)
    requires "" !in responseIds
    ensures FilterWith(messages, callIds, responseIds).Some?
    ensures var out := FilterWith(messages, callIds, responseIds).value;
      && CollectToolCallIds(out) == CollectToolCallIds(messages) * responseIds
      && CollectToolResponseIds(out) == CollectToolResponseIds(messages) * callIds
      && forall i :: 0 <= i < |out| ==> CallsAnswered(out[i], responseIds)
  {
    if messages != [] {
      var n := |messages| - 1;
      var m := messages[n];
      assert messages == messages[..n] + [m];
      FilterWithIds(messages[..n], callIds, responseIds);
      FilterWithStep(messages[..n], m, callIds, responseIds);
      OneFiltered(m, callIds, responseIds);
      CollectConcat(FilterWith(messages[..n], callIds, responseIds).value, FilterOne(m, callIds, responseIds));
    }
  }

  /** After filtering, the ids called are exactly the ids answered: those that were both before. */
  lemma FilterMatchesIds(messages: seq<Message>)
    ensures CollectToolCallIds(Filtered(messages))
         == CollectToolResponseIds(Filtered(messages))
         == CollectToolCallIds(messages) * CollectToolResponseIds(messages)
    ensures PairingClosed(Filtered(messages))
  {
    ResponseIdsAreNotEmpty(messages);
    FilterWithIds(messages, CollectToolCallIds(messages), CollectToolResponseIds(messages));
    var out := Filtered(messages);
    forall i | 0 <= i < |out|
      ensures Settled(out[i], CollectToolCallIds(out), CollectToolResponseIds(out))
    {
      IdsAreCollected(out, i);
      CallsAreCollected(messages, out, i);
    }
  }

  lemma {:induction false} IdsAreCollected(messages: seq<Message>, i: nat)
    requires i < |messages|
    ensures IdsCalled(messages[i]) <= CollectToolCallIds(messages)
    ensures IdAnswered(messages[i]) <= CollectToolResponseIds(messages)
  {
    if i < |messages| - 1 { IdsAreCollected(messages[..|messages| - 1], i); }
  }

  lemma CallsAreCollected(messages: seq<Message>, out: seq<Message>, i: nat)
    requires i < |out| && "" !in CollectToolResponseIds(messages)
    requires CollectToolResponseIds(out) == CollectToolCallIds(messages) * CollectToolResponseIds(messages)
    requires CollectToolCallIds(out) == CollectToolResponseIds(out)
    requires CallsAnswered(out[i], CollectToolResponseIds(messages))
    ensures CallsAnswered(out[i], CollectToolResponseIds(out))
  {
    IdsAreCollected(out, i);
    if out[i].role.Assistant? {
      forall c | c in CallsOf(out[i]) ensures c.id in CollectToolResponseIds(out) {
        assert c.id in IdsCalled(out[i]);
      }
    }
  }

  lemma SettledIsKept(m: Message, callIds: set<string>, responseIds: set<string>)
    requires Settled(m, callIds, responseIds)
    ensures FilterOne(m, callIds, responseIds) == [m]
  {
    MatchedMeaning(CallsOf(m), responseIds);
  }

  lemma {:induction false} SettledPassThrough(messages: seq<Message>, callIds: set<string>, responseIds: set<string>)
    requires AllSettled(messages, callIds, responseIds)
    ensures FilterWith(messages, callIds, responseIds) == Some(messages)
  {
    if messages != [] {
      var n := |messages| - 1;
      var m := messages[n];
      assert messages == messages[..n] + [m];
      SettledPassThrough(messages[..n], callIds, responseIds);
      FilterWithStep(messages[..n], m, callIds, responseIds);
      SettledIsKept(m, callIds, responseIds);
    }
  }

  /** A transcript is a fixpoint of the filter if it is pairing-closed; in particular the filter is idempotent. */
  lemma FilterIsIdempotent(messages: seq<Message>)
    ensures PairingClosed(messages) ==> Filtered(messages) == messages
    ensures Filtered(Filtered(messages)) == Filtered(messages)
  {
    if PairingClosed(messages) {
      SettledPassThrough(messages, CollectToolCallIds(messages), CollectToolResponseIds(messages));
    }
    FilterMatchesIds(messages);
    var out := Filtered(messages);
    SettledPassThrough(out, CollectToolCallIds(out), CollectToolResponseIds(out));
  }

  // ----- the filter keeps as much as it can --------------------------------------------

  /** `a` arises from `b` by leaving elements out. */
  predicate SubSeq<T(==)>(a: seq<T>, b: seq<T>)
    decreases |b|
  {
    if a == [] then true
    else if b == [] then false
    else SubSeq(a, b[..|b| - 1]) || (a[|a| - 1] == b[|b| - 1] && SubSeq(a[..|a| - 1], b[..|b| - 1]))
  }

  /** The message itself, or the message with some of its calls, but not all, left out. */
  predicate Fits(m: Message, orig: Message) {
    || m == orig
    || (CallsTools(orig) && CallsOf(m) != []
        && m == orig.(toolCalls := m.toolCalls) && SubSeq(CallsOf(m), CallsOf(orig)))
  }

  /** `a` arises from the transcript `b` by leaving out messages and calls, in order. */
  predicate SubTranscript(a: seq<Message>, b: seq<Message>)
    decreases |b|
  {
    if a == [] then true
    else if b == [] then false
    else
      || SubTranscript(a, b[..|b| - 1])
      || (Fits(a[|a| - 1], b[|b| - 1]) && SubTranscript(a[..|a| - 1], b[..|b| - 1]))
  }

  lemma {:induction false} SubSeqElements(a: seq<Call>, b: seq<Call>, c: Call)
    requires SubSeq(a, b) && c in a
    ensures c in b
    decreases |b|
  {
    var n := |b| - 1;
    assert b == b[..n] + [b[n]] && a == a[..|a| - 1] + [a[|a| - 1]];
    if SubSeq(a, b[..n]) { SubSeqElements(a, b[..n], c); }
    else if c in a[..|a| - 1] { SubSeqElements(a[..|a| - 1], b[..n], c); }
  }

  lemma {:induction false} SubSeqMatched(a: seq<Call>, b: seq<Call>, ids: set<string>)
    requires SubSeq(a, b) && forall c :: c in a ==> c.id in ids
    ensures SubSeq(a, Matched(b, ids))
    decreases |b|
  {
    if a != [] {
      var n := |b| - 1;
      var before := Matched(b[..n], ids);
      if SubSeq(a, b[..n]) {
        SubSeqMatched(a, b[..n], ids);
        if b[n].id in ids { assert (before + [b[n]])[..|before|] == before; }
      } else {
        assert a[|a| - 1] in a;
        SubSeqMatched(a[..|a| - 1], b[..n], ids);
        assert (before + [b[n]])[..|before|] == before;
      }
    }
  }

  lemma FitsIds(m: Message, orig: Message)
    requires Fits(m, orig)
    ensures IdsCalled(m) <= IdsCalled(orig) && IdAnswered(m) == IdAnswered(orig)
  {
    if m != orig {
      forall c | c in CallsOf(m) ensures c in CallsOf(orig) { SubSeqElements(CallsOf(m), CallsOf(orig), c); }
    }
  }

  lemma {:induction false} SubTranscriptIds(a: seq<Message>, b: seq<Message>)
    requires SubTranscript(a, b)
    ensures CollectToolCallIds(a) <= CollectToolCallIds(b)
    ensures CollectToolResponseIds(a) <= CollectToolResponseIds(b)
    decreases |b|
  {
    if a != [] {
      var n := |b| - 1;
      if SubTranscript(a, b[..n]) {
        SubTranscriptIds(a, b[..n]);
      } else {
        SubTranscriptIds(a[..|a| - 1], b[..n]);
        FitsIds(a[|a| - 1], b[n]);
      }
    }
  }

  lemma SettledFits(m: Message, orig: Message, callIds: set<string>, responseIds: set<string>)
    requires Fits(m, orig) && Settled(m, callIds, responseIds)
    ensures ShouldIncludeMessage(orig, callIds, responseIds)
    ensures MaybeTrimToolCalls(orig, responseIds).Some? && Fits(m, MaybeTrimToolCalls(orig, responseIds).value)
  {
    MatchedMeaning(CallsOf(orig), responseIds);
    if CallsTools(orig) {
      if m == orig {
        assert Matched(CallsOf(orig), responseIds) == CallsOf(orig);
      } else {
        var c := CallsOf(m)[0];
        assert c in CallsOf(m);
        SubSeqElements(CallsOf(m), CallsOf(orig), c);
        assert c in Matched(CallsOf(orig), responseIds);
        SubSeqMatched(CallsOf(m), CallsOf(orig), responseIds);
      }
    }
  }

  lemma {:induction false} FilterKeepsSettled(a: seq<Message>, b: seq<Message>, callIds: set<string>,
                                              responseIds: set<string>)
    requires SubTranscript(a, b) && AllSettled(a, callIds, responseIds)
    ensures FilterWith(b, callIds, responseIds).Some?
    ensures SubTranscript(a, FilterWith(b, callIds, responseIds).value)
    decreases |b|
  {
    FilterNeverRaises(b, callIds, responseIds);
    if a != [] {
      var n := |b| - 1;
      FilterNeverRaises(b[..n], callIds, responseIds);
      var before := FilterWith(b[..n], callIds, responseIds).value;
      var out := FilterWith(b, callIds, responseIds).value;
      if SubTranscript(a, b[..n]) {
        FilterKeepsSettled(a, b[..n], callIds, responseIds);
        if out != before { assert out[..|out| - 1] == before; }
      } else {
        FilterKeepsSettled(a[..|a| - 1], b[..n], callIds, responseIds);
        SettledFits(a[|a| - 1], b[n], callIds, responseIds);
        assert out[..|out| - 1] == before;
      }
    }
  }

  /** The filtered transcript is the largest pairing-closed one: it arises from the transcript by
      leaving things out, and every pairing-closed transcript that does so arises from it. */
  lemma FilterIsLargest(messages: seq<Message>, s: seq<Message>)
    requires SubTranscript(s, messages) && PairingClosed(s)
    ensures SubTranscript(s, Filtered(messages))
  {
    SubTranscriptIds(s, messages);
    FilterKeepsSettled(s, messages, CollectToolCallIds(messages), CollectToolResponseIds(messages));
  }

  lemma {:induction false} MatchedIsSubSeq(calls: seq<Call>, ids: set<string>)
    ensures SubSeq(Matched(calls, ids), calls)
  {
    if calls != [] {
      MatchedIsSubSeq(calls[..|calls| - 1], ids);
      var before := Matched(calls[..|calls| - 1], ids);
      if calls[|calls| - 1].id in ids { assert (before + [calls[|calls| - 1]])[..|before|] == before; }
    }
  }

  lemma {:induction false} FilterWithLeavesOut(messages: seq<Message>, callIds: set<string>, responseIds: set<string>)
    ensures FilterWith(messages, callIds, responseIds).Some?
    ensures SubTranscript(FilterWith(messages, callIds, responseIds).value, messages)
  {
    FilterNeverRaises(messages, callIds, responseIds);
    if messages != [] {
      var n := |messages| - 1;
      FilterWithLeavesOut(messages[..n], callIds, responseIds);
      var before := FilterWith(messages[..n], callIds, responseIds).value;
      var out := FilterWith(messages, callIds, responseIds).value;
      if out != before {
        assert out[..|out| - 1] == before;
        MatchedIsSubSeq(CallsOf(messages[n]), responseIds);
      }
    }
  }

  /** Order is kept: the filtered transcript arises from the transcript by leaving things out. */
  lemma FilterLeavesOut(messages: seq<Message>)
    ensures SubTranscript(Filtered(messages), messages)
  {
    FilterWithLeavesOut(messages, CollectToolCallIds(messages), CollectToolResponseIds(messages));
  }
}
