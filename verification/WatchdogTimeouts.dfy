/** When a watched runtime can time out although it gave a sign of life within the limit, and when a
    runtime is terminated although it is watched. */
module WatchdogTimeouts {
  import opened PyText
  import opened Watchdog
  import opened WatchdogRuns

  // ----- going on from a state ---------------------------------------------------------

  function RunFrom(s: System, events: seq<Event>): (r: System)
    requires s.table.Valid()
    ensures r.table.Valid()
  {
    if events == [] then s
    else
      var before, ev := RunFrom(s, events[..|events| - 1]), events[|events| - 1];
      StepKeepsTableValid(before, ev);
      Step(before, ev)
  }

  lemma {:induction false} RunFromKeepsInv(s: System, events: seq<Event>)
    requires Inv(s)
    ensures Inv(RunFrom(s, events))
  {
    if events != [] {
      RunFromKeepsInv(s, events[..|events| - 1]);
      StepKeepsInv(RunFrom(s, events[..|events| - 1]), events[|events| - 1]);
    }
  }

  lemma RunFromNext(s: System, events: seq<Event>, n: nat)
    requires s.table.Valid() && n < |events|
    ensures RunFrom(s, events[..n + 1]) == Step(RunFrom(s, events[..n]), events[n])
  {
    assert events[..n + 1][..n] == events[..n];
  }

  /** No watch on the way uses a clock reading older than the last sign of life of the entry it refreshes. */
  predicate NeverStaleFrom(s: System, events: seq<Event>)
    requires s.table.Valid()
  {
    events == []
    || (NeverStaleFrom(s, events[..|events| - 1]) && !Stale(RunFrom(s, events[..|events| - 1]), events[|events| - 1]))
  }

  // ----- early timeouts ----------------------------------------------------------------

  /** The last activity lies before the last sign of life. */
  predicate SetBack(e: Entry) { e.lastActivity < e.heard }

  /** A timeout although there was a sign of life within the limit. */
  predicate Early(end: End) { end.timeout && end.at - end.entry.heard <= end.limit }

  predicate EarlyEnded(s: System) { exists i :: 0 <= i < |s.ended| && Early(s.ended[i]) }

  predicate SomeSetBack(s: System) { exists k :: k in s.table.data && SetBack(s.table.data[k]) }

  /** Some way of going on without stale watches ends with an early timeout. */
  ghost predicate MayTimeOutEarly(s: System)
    requires s.table.Valid()
  {
    exists events :: NeverStaleFrom(s, events) && EarlyEnded(RunFrom(s, events))
  }

  lemma {:induction false} OverdueHas(entries: seq<Entry>, now: int, limit: int)
    ensures forall e :: e in Overdue(entries, now, limit) <==> e in entries && IsOverdue(e, now, limit)
  {
    if entries != [] {
      OverdueHas(entries[..|entries| - 1], now, limit);
      assert entries == entries[..|entries| - 1] + [entries[|entries| - 1]];
    }
  }

  lemma ValuesAreEntries(t: Table, e: Entry)
    requires t.Valid()
    ensures e in t.Values() <==> exists k :: k in t.data && t.data[k] == e
  {
    var values := t.Values();
    if e in values {
      var i :| 0 <= i < |values| && values[i] == e;
      assert t.order[i] in t.order;
    }
    if k :| k in t.data && t.data[k] == e {
      var i :| 0 <= i < |t.order| && t.order[i] == k;
      assert values[i] == e;
    }
  }

  /** The ends that enforcement adds are those of the entries overdue by the clock reading. */
  lemma EnforceEnds(s: System, t: nat, end: End)
    requires s.table.Valid() && At(s, t).Enforcing?
    ensures end in Step(s, EnforceLocked(t)).ended <==>
      || end in s.ended
      || (end == End(end.entry, true, s.clock, s.limit) && IsOverdue(end.entry, At(s, t).now, s.limit)
          && exists k :: k in s.table.data && s.table.data[k] == end.entry)
  {
    var now, entries := At(s, t).now, s.table.Values();
    var overdue := Overdue(entries, now, s.limit);
    EnforceStep(s, t);
    OverdueHas(entries, now, s.limit);
    EndsOfEntries(overdue, s.clock, s.limit);
    ValuesAreEntries(s.table, end.entry);
    var ends := Ends(overdue, s.clock, s.limit);
    if end in ends {
      var i :| 0 <= i < |ends| && ends[i] == end;
      assert overdue[i] in overdue;
    }
    if end == End(end.entry, true, s.clock, s.limit) && end.entry in overdue {
      var i :| 0 <= i < |overdue| && overdue[i] == end.entry;
      assert ends[i] == end;
    }
  }

  lemma EarlyEndedHas(s: System, end: End)
    ensures end in s.ended && Early(end) ==> EarlyEnded(s)
  {
    if end in s.ended {
      var i :| 0 <= i < |s.ended| && s.ended[i] == end;
      assert !Early(end) || Early(s.ended[i]);
    }
  }

  /** Entries set back before `horizon` has passed since their last sign of life. */
  predicate SetBackWithin(s: System, horizon: int) {
    exists k :: k in s.table.data && SetBack(s.table.data[k]) && s.clock <= s.table.data[k].heard + horizon
  }

  /** If every entry that is set back was last heard of longer ago than the limit, enforcing ends none early. */
  lemma EnforceKeepsCalm(s: System, t: nat)
    requires Inv(s) && At(s, t).Enforcing? && !EarlyEnded(s) && !SetBackWithin(s, s.limit)
    ensures !EarlyEnded(Step(s, EnforceLocked(t)))
  {
    var after := Step(s, EnforceLocked(t));
    forall i | 0 <= i < |after.ended| ensures !Early(after.ended[i]) {
      var end := after.ended[i];
      assert end in after.ended;
      EnforceEnds(s, t, end);
      EarlyEndedHas(s, end);
      if end !in s.ended {
        assert t in s.threads && s.threads[t].now <= s.clock;
        var k :| k in s.table.data && s.table.data[k] == end.entry;
        assert SetBack(s.table.data[k]) ==> s.clock > end.entry.heard + s.limit;
      }
    }
  }

  lemma TableShrinks(s: System, t: nat)
    requires s.table.Valid() && At(s, t).Enforcing?
    ensures var after := Step(s, EnforceLocked(t)).table.data;
      forall k :: k in after ==> k in s.table.data && after[k] == s.table.data[k]
  {
    EnforceStep(s, t);
    EnforcedIsPart(s.table, s.table.Values(), At(s, t).now, s.limit);
  }

  lemma NoneSetBackWithin(s: System)
    requires !SomeSetBack(s)
    ensures !SetBackWithin(s, s.limit)
  {
  }

  lemma SetBackKept(s: System, ev: Event, k: string)
    requires Inv(s) && !Stale(s, ev) && k in Step(s, ev).table.data && SetBack(Step(s, ev).table.data[k])
    ensures k in s.table.data && s.table.data[k] == Step(s, ev).table.data[k]
  {
    if Enabled(s, ev) && ev.EnforceLocked? { TableShrinks(s, ev.t); }
  }

  lemma EndedElsewhere(s: System, ev: Event)
    requires s.table.Valid() && !(ev.EnforceLocked? && Enabled(s, ev)) && !EarlyEnded(s)
    ensures !EarlyEnded(Step(s, ev))
  {
    var after := Step(s, ev);
    forall i | 0 <= i < |after.ended| ensures !Early(after.ended[i]) {
      if i < |s.ended| { assert after.ended[i] == s.ended[i]; }
    }
  }

  /** Without a stale watch no entry is set back, and without entries set back no timeout is early. */
  lemma StepKeepsCalm(s: System, ev: Event)
    requires Inv(s) && !Stale(s, ev) && !EarlyEnded(s) && !SomeSetBack(s)
    ensures !EarlyEnded(Step(s, ev)) && !SomeSetBack(Step(s, ev))
  {
    NoneSetBackWithin(s);
    if Enabled(s, ev) && ev.EnforceLocked? { EnforceKeepsCalm(s, ev.t); } else { EndedElsewhere(s, ev); }
    var after := Step(s, ev);
    if k :| k in after.table.data && SetBack(after.table.data[k]) { SetBackKept(s, ev, k); }
  }

  lemma {:induction false} CalmStays(s: System, events: seq<Event>)
    requires Inv(s) && NeverStaleFrom(s, events) && !EarlyEnded(s) && !SomeSetBack(s)
    ensures !EarlyEnded(RunFrom(s, events)) && !SomeSetBack(RunFrom(s, events))
  {
    if events != [] {
      var n := |events| - 1;
      CalmStays(s, events[..n]);
      RunFromKeepsInv(s, events[..n]);
      StepKeepsCalm(RunFrom(s, events[..n]), events[n]);
    }
  }

  // ----- making one happen -------------------------------------------------------------

  lemma {:induction false} Bounded(ts: set<nat>) returns (b: nat)
    ensures forall t :: t in ts ==> t < b
    decreases |ts|
  {
    b := 0;
    if ts != {} {
      var t :| t in ts;
      var below := Bounded(ts - {t});
      b := if below <= t then t + 1 else below;
      forall x | x in ts ensures x < b { assert x == t || x in ts - {t}; }
    }
  }

  /** An idle thread enforces at once. */
  lemma EnforceNow(s: System, t: nat, k: string)
    requires s.table.Valid() && t !in s.threads && s.limit > 0 && k in s.table.data
    requires var e := s.table.data[k]; s.clock - e.lastActivity > s.limit && s.clock - e.heard <= s.limit
    ensures Step(s, EnforceBegin(t)).table.Valid()
    ensures EarlyEnded(Step(Step(s, EnforceBegin(t)), EnforceLocked(t)))
  {
    var begun := Step(s, EnforceBegin(t));
    assert begun == s.(threads := s.threads[t := Enforcing(s.clock)]);
    var end := End(s.table.data[k], true, s.clock, s.limit);
    EnforceEnds(begun, t, end);
    EarlyEndedHas(Step(begun, EnforceLocked(t)), end);
  }

  lemma RunFromSnoc(s: System, first: seq<Event>, a: Event)
    requires s.table.Valid()
    ensures RunFrom(s, first + [a]) == Step(RunFrom(s, first), a)
    ensures NeverStaleFrom(s, first) && !a.WatchLocked? ==> NeverStaleFrom(s, first + [a])
  {
    assert (first + [a])[..|first|] == first;
  }

  lemma RunFromTwo(s: System, first: seq<Event>, a: Event, b: Event)
    requires s.table.Valid()
    ensures Step(RunFrom(s, first), a).table.Valid()
    ensures RunFrom(s, first + [a, b]) == Step(Step(RunFrom(s, first), a), b)
    ensures NeverStaleFrom(s, first) && !a.WatchLocked? && !b.WatchLocked? ==> NeverStaleFrom(s, first + [a, b])
  {
    RunFromSnoc(s, first, a);
    RunFromSnoc(s, first + [a], b);
    assert first + [a, b] == (first + [a]) + [b];
  }

  lemma RunFromOne(s: System, a: Event)
    requires s.table.Valid()
    ensures RunFrom(s, [a]) == Step(s, a)
    ensures !a.WatchLocked? ==> NeverStaleFrom(s, [a])
  {
    assert [a][..0] == [];
  }

  lemma RunsReady(s: System, limit: int, first: seq<Event>)
    requires s.table.Valid() && first == [Tick(1)] + [Configure(limit)]
    ensures RunFrom(s, first) == s.(clock := s.clock + 1, limit := limit) && NeverStaleFrom(s, first)
  {
    RunFromOne(s, Tick(1));
    RunFromSnoc(s, [Tick(1)], Configure(limit));
  }

  lemma ThenEnforces(s: System, first: seq<Event>, ready: System, t: nat)
    requires s.table.Valid() && NeverStaleFrom(s, first) && ready == RunFrom(s, first)
    requires Step(ready, EnforceBegin(t)).table.Valid()
    requires EarlyEnded(Step(Step(ready, EnforceBegin(t)), EnforceLocked(t)))
    ensures MayTimeOutEarly(s)
  {
    RunFromTwo(s, first, EnforceBegin(t), EnforceLocked(t));
    var events := first + [EnforceBegin(t), EnforceLocked(t)];
    assert NeverStaleFrom(s, events) && EarlyEnded(RunFrom(s, events));
  }

  /** An entry that is set back times out early when the limit is configured to lie in between. */
  lemma SetBackTimesOut(s: System, k: string)
    requires Inv(s) && k in s.table.data && SetBack(s.table.data[k])
    ensures MayTimeOutEarly(s)
  {
    var t := Bounded(s.threads.Keys);
    var limit := s.clock + 1 - s.table.data[k].heard;
    var ready := s.(clock := s.clock + 1, limit := limit);
    RunsReady(s, limit, [Tick(1)] + [Configure(limit)]);
    EnforceNow(ready, t, k);
    ThenEnforces(s, [Tick(1)] + [Configure(limit)], ready, t);
  }

  /** A state admits an early timeout without further stale watches if and only if one has happened or
      some watched entry is set back. */
  lemma EarlyTimeoutIff(s: System)
    requires Inv(s)
    ensures MayTimeOutEarly(s) <==> EarlyEnded(s) || SomeSetBack(s)
  {
    if MayTimeOutEarly(s) && !EarlyEnded(s) && !SomeSetBack(s) {
      var events :| NeverStaleFrom(s, events) && EarlyEnded(RunFrom(s, events));
      CalmStays(s, events);
    }
    if EarlyEnded(s) {
      assert NeverStaleFrom(s, []) && RunFrom(s, []) == s;
    }
    if k :| k in s.table.data && SetBack(s.table.data[k]) { SetBackTimesOut(s, k); }
  }

  // ----- the same with the limit left alone --------------------------------------------

  predicate NoConfigure(events: seq<Event>) { forall i :: 0 <= i < |events| ==> !events[i].Configure? }

  ghost predicate MayTimeOutEarlyUnderLimit(s: System)
    requires s.table.Valid()
  {
    exists events :: NoConfigure(events) && NeverStaleFrom(s, events) && EarlyEnded(RunFrom(s, events))
  }

  lemma StepKeepsCalmUnderLimit(s: System, ev: Event)
    requires Inv(s) && !Stale(s, ev) && !ev.Configure? && !EarlyEnded(s) && !SetBackWithin(s, s.limit)
    ensures var after := Step(s, ev);
      !EarlyEnded(after) && !SetBackWithin(after, after.limit)
  {
    if Enabled(s, ev) && ev.EnforceLocked? { EnforceKeepsCalm(s, ev.t); } else { EndedElsewhere(s, ev); }
    var after := Step(s, ev);
    assert after.limit == s.limit && after.clock >= s.clock;
    if k :| (k in after.table.data && SetBack(after.table.data[k])
             && after.clock <= after.table.data[k].heard + s.limit) {
      SetBackKept(s, ev, k);
    }
  }

  lemma {:induction false} CalmStaysUnderLimit(s: System, events: seq<Event>)
    requires Inv(s) && NeverStaleFrom(s, events) && NoConfigure(events) && !EarlyEnded(s) && !SetBackWithin(s, s.limit)
    ensures var after := RunFrom(s, events);
      !EarlyEnded(after) && !SetBackWithin(after, after.limit)
  {
    if events != [] {
      var n := |events| - 1;
      CalmStaysUnderLimit(s, events[..n]);
      RunFromKeepsInv(s, events[..n]);
      StepKeepsCalmUnderLimit(RunFrom(s, events[..n]), events[n]);
    }
  }

  lemma SetBackTimesOutUnderLimit(s: System, k: string)
    requires Inv(s) && s.limit > 0 && k in s.table.data && SetBack(s.table.data[k])
    requires s.clock <= s.table.data[k].heard + s.limit
    ensures MayTimeOutEarlyUnderLimit(s)
  {
    var t := Bounded(s.threads.Keys);
    var due := s.table.data[k].lastActivity + s.limit + 1;
    var dt: nat := if due > s.clock then due - s.clock else 0;
    RunFromOne(s, Tick(dt));
    var first := [Tick(dt)];
    EnforceNow(RunFrom(s, first), t, k);
    RunFromTwo(s, first, EnforceBegin(t), EnforceLocked(t));
    var events := first + [EnforceBegin(t), EnforceLocked(t)];
    assert NoConfigure(events) && EarlyEnded(RunFrom(s, events));
  }

  /** While nobody changes the limit, an early timeout lies ahead if and only if one has happened or
      some watched entry is set back and was heard of within the limit. */
  lemma EarlyTimeoutUnderLimitIff(s: System)
    requires Inv(s) && s.limit > 0
    ensures MayTimeOutEarlyUnderLimit(s) <==> EarlyEnded(s) || SetBackWithin(s, s.limit)
  {
    if MayTimeOutEarlyUnderLimit(s) && !EarlyEnded(s) && !SetBackWithin(s, s.limit) {
      var events :| NoConfigure(events) && NeverStaleFrom(s, events) && EarlyEnded(RunFrom(s, events));
      CalmStaysUnderLimit(s, events);
    }
    if EarlyEnded(s) {
      assert NoConfigure([]) && NeverStaleFrom(s, []) && RunFrom(s, []) == s;
    }
    if k :| k in s.table.data && SetBack(s.table.data[k]) && s.clock <= s.table.data[k].heard + s.limit {
      SetBackTimesOutUnderLimit(s, k);
    }
  }

  // ----- timeouts while the watchdog is off --------------------------------------------

  /** Between the two states a runtime timed out. */
  predicate TimedOut(before: System, after: System) {
    exists i :: |before.ended| <= i < |after.ended| && after.ended[i].timeout
  }

  /** Some way of going on, nobody switching the watchdog on again, times a runtime out. */
  ghost predicate MayTimeOutOff(s: System)
    requires s.table.Valid()
  {
    exists events :: NoConfigure(events) && TimedOut(s, RunFrom(s, events))
  }

  /** A thread that read the clock while the watchdog was on has yet to look at the table, and by its
      reading an entry is overdue. */
  predicate OverdueFor(s: System, t: nat, k: string) {
    t in s.threads && s.threads[t].Enforcing? && k in s.table.data
    && IsOverdue(s.table.data[k], s.threads[t].now, s.limit)
  }

  /** Or what another thread is about to put into the table will be. */
  predicate OverdueOnceWatched(s: System, t: nat, u: nat) {
    t in s.threads && s.threads[t].Enforcing? && u in s.threads && s.threads[u].Watching?
    && s.threads[t].now - s.threads[u].now > s.limit
  }

  ghost predicate Armed(s: System) {
    || (exists t, k :: OverdueFor(s, t, k))
    || (exists t, u :: OverdueOnceWatched(s, t, u))
  }

  lemma OnlyEnforcingTimesOut(s: System, ev: Event)
    requires s.table.Valid() && TimedOut(s, Step(s, ev))
    ensures ev.EnforceLocked? && Enabled(s, ev)
  {
  }

  lemma EnforcingTimesOut(s: System, t: nat, k: string)
    requires s.table.Valid() && OverdueFor(s, t, k)
    ensures TimedOut(s, Step(s, EnforceLocked(t)))
  {
    var entries, overdue := s.table.Values(), Overdue(s.table.Values(), At(s, t).now, s.limit);
    EnforceStep(s, t);
    OverdueHas(entries, At(s, t).now, s.limit);
    ValuesAreEntries(s.table, s.table.data[k]);
    EndsOfEntries(overdue, s.clock, s.limit);
    assert s.table.data[k] in overdue;
    assert Step(s, EnforceLocked(t)).ended[|s.ended|].timeout;
  }

  lemma EnforcingNoneOverdue(s: System, t: nat)
    requires s.table.Valid() && At(s, t).Enforcing? && !Armed(s)
    ensures !TimedOut(s, Step(s, EnforceLocked(t)))
  {
    var entries, now := s.table.Values(), At(s, t).now;
    EnforceStep(s, t);
    OverdueHas(entries, now, s.limit);
    var overdue := Overdue(entries, now, s.limit);
    if overdue != [] {
      assert overdue[0] in overdue;
      ValuesAreEntries(s.table, overdue[0]);
      var k :| k in s.table.data && s.table.data[k] == overdue[0];
      assert OverdueFor(s, t, k);
    }
  }

  /** Where an entry comes from while the watchdog is off: it was there, or a waiting watch put it there. */
  lemma EntryWasThere(s: System, ev: Event, k: string)
    requires s.table.Valid() && s.limit <= 0 && !ev.Configure? && k in Step(s, ev).table.data
    ensures || (k in s.table.data && s.table.data[k] == Step(s, ev).table.data[k])
            || (ev.WatchLocked? && At(s, ev.t).Watching? && At(s, ev.t).now == Step(s, ev).table.data[k].lastActivity)
  {
    if Enabled(s, ev) && ev.EnforceLocked? { TableShrinks(s, ev.t); }
  }

  lemma NoNewReaders(s: System, ev: Event, t: nat)
    requires s.table.Valid() && s.limit <= 0 && !ev.Configure? && t in Step(s, ev).threads
    requires Step(s, ev).threads[t].Enforcing? || Step(s, ev).threads[t].Watching?
    ensures t in s.threads && s.threads[t] == Step(s, ev).threads[t]
  {
  }

  lemma ArmedBefore(s: System, ev: Event)
    requires s.table.Valid() && s.limit <= 0 && !ev.Configure? && Armed(Step(s, ev))
    ensures Armed(s)
  {
    var after := Step(s, ev);
    if t, k :| OverdueFor(after, t, k) {
      NoNewReaders(s, ev, t);
      EntryWasThere(s, ev, k);
      if k in s.table.data && s.table.data[k] == after.table.data[k] {
        assert OverdueFor(s, t, k);
      } else {
        assert OverdueOnceWatched(s, t, ev.t);
      }
    } else {
      var t, u :| OverdueOnceWatched(after, t, u);
      NoNewReaders(s, ev, t);
      NoNewReaders(s, ev, u);
      assert OverdueOnceWatched(s, t, u);
    }
  }

  lemma TimedOutTwice(a: System, b: System, c: System)
    requires !TimedOut(a, b) && !TimedOut(b, c) && a.ended <= b.ended <= c.ended
    ensures !TimedOut(a, c) && a.ended <= c.ended
  {
  }

  lemma EndedGrows(s: System, ev: Event)
    requires s.table.Valid()
    ensures s.ended <= Step(s, ev).ended
  {
  }

  lemma {:induction false} UnarmedStays(s: System, events: seq<Event>)
    requires s.table.Valid() && s.limit <= 0 && NoConfigure(events) && !Armed(s)
    ensures var after := RunFrom(s, events);
      !TimedOut(s, after) && s.ended <= after.ended && !Armed(after) && after.limit == s.limit
  {
    if events != [] {
      var n := |events| - 1;
      var before, ev := RunFrom(s, events[..n]), events[n];
      UnarmedStays(s, events[..n]);
      if TimedOut(before, Step(before, ev)) { OnlyEnforcingTimesOut(before, ev); EnforcingNoneOverdue(before, ev.t); }
      if Armed(Step(before, ev)) { ArmedBefore(before, ev); }
      EndedGrows(before, ev);
      TimedOutTwice(s, before, Step(before, ev));
    }
  }

  lemma ArmedTimesOut(s: System, t: nat, k: string)
    requires s.table.Valid() && OverdueFor(s, t, k)
    ensures MayTimeOutOff(s)
  {
    RunFromOne(s, EnforceLocked(t));
    EnforcingTimesOut(s, t, k);
    assert NoConfigure([EnforceLocked(t)]);
  }

  lemma WatchedThenTimesOut(s: System, t: nat, u: nat)
    requires s.table.Valid() && OverdueOnceWatched(s, t, u)
    ensures MayTimeOutOff(s)
  {
    var watched := Step(s, WatchLocked(u));
    var events := [WatchLocked(u)] + [EnforceLocked(t)];
    RunFromOne(s, WatchLocked(u));
    RunFromSnoc(s, [WatchLocked(u)], EnforceLocked(t));
    assert OverdueFor(watched, t, s.threads[u].r.sid);
    EnforcingTimesOut(watched, t, s.threads[u].r.sid);
    assert watched.ended == s.ended;
    assert NoConfigure(events) && TimedOut(s, RunFrom(s, events));
  }

  /** A watchdog that is off, and stays off, still times a runtime out if and only if a thread read the
      clock before it was switched off and has yet to take the lock, and by that reading an entry is
      overdue for the limit of now, or will be once a waiting watch has gone through. */
  lemma OffTimesOutIffArmed(s: System)
    requires s.table.Valid() && s.limit <= 0
    ensures MayTimeOutOff(s) <==> Armed(s)
  {
    if MayTimeOutOff(s) && !Armed(s) {
      var events :| NoConfigure(events) && TimedOut(s, RunFrom(s, events));
      UnarmedStays(s, events);
    }
    if t, k :| OverdueFor(s, t, k) { ArmedTimesOut(s, t, k); }
    if t, u :| OverdueOnceWatched(s, t, u) { WatchedThenTimesOut(s, t, u); }
  }

  /** So switching off between the check and the lock times out whatever has been idle at all. */
  lemma SwitchingOffTimesOutIdle(s: System, t: nat, k: string)
    requires s.table.Valid() && s.limit > 0 && At(s, t).Idle? && k in s.table.data
    requires s.table.data[k].lastActivity < s.clock
    ensures var off := RunFrom(s, [EnforceBegin(t)] + [Configure(0)]); off.limit == 0 && MayTimeOutOff(off)
  {
    RunFromOne(s, EnforceBegin(t));
    RunFromSnoc(s, [EnforceBegin(t)], Configure(0));
    var off := RunFrom(s, [EnforceBegin(t)] + [Configure(0)]);
    assert OverdueFor(off, t, k);
    ArmedTimesOut(off, t, k);
  }

  // ----- where set-back entries come from ----------------------------------------------

  predicate Watches(s: System, ev: Event, k: string) { ev.WatchLocked? && Enabled(s, ev) && At(s, ev.t).r.sid == k }

  /** The event sets the last activity of the runtime `k`. */
  predicate Updates(s: System, ev: Event, k: string) {
    Watches(s, ev, k) || (ev == Beat(k) && s.limit > 0 && k in s.table.data)
  }

  /** Of the events that set the last activity of `k`, the last was a stale watch. */
  predicate LastUpdateStale(limit: int, clock: int, events: seq<Event>, k: string) {
    && events != []
    && var before, ev := Run(limit, clock, events[..|events| - 1]), events[|events| - 1];
       if Updates(before, ev, k) then Stale(before, ev) else LastUpdateStale(limit, clock, events[..|events| - 1], k)
  }

  lemma UpdateSetsBackIffStale(s: System, ev: Event, k: string)
    requires Inv(s) && Updates(s, ev, k)
    ensures k in Step(s, ev).table.data
    ensures SetBack(Step(s, ev).table.data[k]) <==> Stale(s, ev)
  {
  }

  lemma OtherwiseUnchanged(s: System, ev: Event, k: string)
    requires Inv(s) && !Updates(s, ev, k) && k in Step(s, ev).table.data
    ensures k in s.table.data && Step(s, ev).table.data[k] == s.table.data[k]
  {
    if Enabled(s, ev) && ev.EnforceLocked? { TableShrinks(s, ev.t); }
  }

  /** A watched entry is set back if and only if the last update of its activity was a stale watch. */
  lemma {:induction false} SetBackIffLastUpdateStale(limit: int, clock: int, events: seq<Event>, k: string)
    requires k in Run(limit, clock, events).table.data
    ensures SetBack(Run(limit, clock, events).table.data[k]) <==> LastUpdateStale(limit, clock, events, k)
  {
    var before, ev := Run(limit, clock, events[..|events| - 1]), events[|events| - 1];
    RunKeepsInv(limit, clock, events[..|events| - 1]);
    if Updates(before, ev, k) {
      UpdateSetsBackIffStale(before, ev, k);
    } else {
      OtherwiseUnchanged(before, ev, k);
      SetBackIffLastUpdateStale(limit, clock, events[..|events| - 1], k);
    }
  }

  /** After any run, an early timeout can follow without further stale watches if and only if there was
      one already, or the last update of some watched runtime was a stale watch. */
  lemma EarlyTimeoutAfterRunIff(limit: int, clock: int, events: seq<Event>)
    ensures MayTimeOutEarly(Run(limit, clock, events)) <==>
      || EarlyEnded(Run(limit, clock, events))
      || exists k :: k in Run(limit, clock, events).table.data && LastUpdateStale(limit, clock, events, k)
  {
    var s := Run(limit, clock, events);
    RunKeepsInv(limit, clock, events);
    EarlyTimeoutIff(s);
    forall k | k in s.table.data ensures SetBack(s.table.data[k]) <==> LastUpdateStale(limit, clock, events, k) {
      SetBackIffLastUpdateStale(limit, clock, events, k);
    }
  }

  // ----- what an entry holds -----------------------------------------------------------

  /** The last watch of the runtime `k` that went through, if there was one. */
  function LastWatch(limit: int, clock: int, events: seq<Event>, k: string): (l: Option<Local>)
    ensures l.Some? ==> l.value.Watching?
  {
    if events == [] then None
    else
      var before, ev := Run(limit, clock, events[..|events| - 1]), events[|events| - 1];
      if Watches(before, ev, k) then Some(At(before, ev.t)) else LastWatch(limit, clock, events[..|events| - 1], k)
  }

  /** The time of the last event that set the last activity of `k`: a watch's clock reading, or when a
      heartbeat came. */
  function LastUpdate(limit: int, clock: int, events: seq<Event>, k: string): int {
    if events == [] then clock
    else
      var before, ev := Run(limit, clock, events[..|events| - 1]), events[|events| - 1];
      if Watches(before, ev, k) then At(before, ev.t).now
      else if Updates(before, ev, k) then before.clock
      else LastUpdate(limit, clock, events[..|events| - 1], k)
  }

  lemma EntryAfterUpdate(s: System, ev: Event, k: string)
    requires Inv(s) && Updates(s, ev, k)
    ensures k in Step(s, ev).table.data
    ensures var e := Step(s, ev).table.data[k];
      if Watches(s, ev, k) then
        var l := At(s, ev.t);
        && e.runtime == l.r && e.key == l.key && e.sessionId == l.session
        && e.acquiredAt == l.now && e.lastActivity == l.now
      else
        k in s.table.data && e.lastActivity == s.clock && e.runtime == s.table.data[k].runtime
        && e.key == s.table.data[k].key && e.sessionId == s.table.data[k].sessionId
        && e.acquiredAt == s.table.data[k].acquiredAt
  {
  }

  /** After any run an entry holds the runtime, key and session of the last watch, acquired at its clock
      reading, and the time of the last update. */
  lemma {:induction false} EntryIsOfLastWatch(limit: int, clock: int, events: seq<Event>, k: string)
    requires k in Run(limit, clock, events).table.data
    ensures LastWatch(limit, clock, events, k).Some?
    ensures var e, l := Run(limit, clock, events).table.data[k], LastWatch(limit, clock, events, k).value;
      && e.runtime == l.r && e.key == l.key && e.sessionId == l.session && e.acquiredAt == l.now
      && e.lastActivity == LastUpdate(limit, clock, events, k)
  {
    var before, ev := Run(limit, clock, events[..|events| - 1]), events[|events| - 1];
    RunKeepsInv(limit, clock, events[..|events| - 1]);
    if Updates(before, ev, k) {
      EntryAfterUpdate(before, ev, k);
      if !Watches(before, ev, k) { EntryIsOfLastWatch(limit, clock, events[..|events| - 1], k); }
    } else {
      OtherwiseUnchanged(before, ev, k);
      EntryIsOfLastWatch(limit, clock, events[..|events| - 1], k);
    }
  }

  // ----- terminating a runtime that is watched -----------------------------------------

  /** The event takes the runtime `k` out of the table. */
  predicate Unwatches(s: System, ev: Event, k: string) {
    && k in s.table.data && Enabled(s, ev)
    && (ev.UnwatchLocked? || ev.EnforceLocked?)
    && (ev.UnwatchLocked? ==> ev.sid == k)
    && (ev.EnforceLocked? ==> IsOverdue(s.table.data[k], At(s, ev.t).now, s.limit))
  }

  lemma InOneMore(order: seq<string>, n: nat, k: string)
    requires n < |order|
    ensures k in order[..n + 1] <==> k in order[..n] || k == order[n]
  {
    assert order[..n + 1] == order[..n] + [order[n]];
  }

  lemma OneMoreKey(t: Table, entries: seq<Entry>, n: nat, now: int, limit: int, k: string)
    requires n < |entries|
    ensures k in Enforced(t, entries[..n + 1], now, limit).data <==>
      k in Enforced(t, entries[..n], now, limit).data
      && !(IsOverdue(entries[n], now, limit) && entries[n].runtime.sid == k)
  {
    OneMoreEntry(t, entries, n, now, limit);
  }

  lemma {:induction false} EnforcedKeys(t: Table, n: nat, now: int, limit: int, k: string)
    requires t.Valid() && n <= |t.order| && forall j :: j in t.data ==> t.data[j].runtime.sid == j
    ensures k in Enforced(t, t.Values()[..n], now, limit).data <==>
      k in t.data && !(k in t.order[..n] && IsOverdue(t.data[k], now, limit))
  {
    if n > 0 {
      var last := t.order[n - 1];
      EnforcedKeys(t, n - 1, now, limit, k);
      assert last in t.order && t.Values()[n - 1] == t.data[last];
      OneMoreKey(t, t.Values(), n - 1, now, limit, k);
      InOneMore(t.order, n - 1, k);
    }
  }

  lemma TableAfter(s: System, ev: Event, k: string)
    requires Inv(s)
    ensures k in Step(s, ev).table.data <==> Watches(s, ev, k) || (k in s.table.data && !Unwatches(s, ev, k))
  {
    if ev.EnforceLocked? && Enabled(s, ev) {
      EnforceStep(s, ev.t);
      EnforcedKeys(s.table, |s.table.order|, At(s, ev.t).now, s.limit, k);
      assert s.table.Values()[..|s.table.order|] == s.table.Values()
        && s.table.order[..|s.table.order|] == s.table.order;
    }
  }

  predicate WatchesAt(s: System, events: seq<Event>, k: string, i: nat)
    requires s.table.Valid() && i < |events|
  {
    Watches(RunFrom(s, events[..i]), events[i], k)
  }

  predicate UnwatchesAt(s: System, events: seq<Event>, k: string, i: nat)
    requires s.table.Valid() && i < |events|
  {
    Unwatches(RunFrom(s, events[..i]), events[i], k)
  }

  /** Of the first `n` events the `j`-th watches `k`, and no later one takes it out again. */
  predicate WatchedSince(s: System, events: seq<Event>, k: string, n: nat, j: nat)
    requires s.table.Valid() && n <= |events|
  {
    && j < n && WatchesAt(s, events, k, j)
    && forall i :: j < i < n ==> !UnwatchesAt(s, events, k, i)
  }

  ghost predicate WatchedAgain(s: System, events: seq<Event>, k: string, n: nat)
    requires s.table.Valid() && n <= |events|
  {
    exists j: nat :: WatchedSince(s, events, k, n, j)
  }

  /** The same, told event by event. */
  predicate WatchedByLast(s: System, events: seq<Event>, k: string, n: nat)
    requires s.table.Valid() && n <= |events|
  {
    n > 0 && (WatchesAt(s, events, k, n - 1)
           || (WatchedByLast(s, events, k, n - 1) && !UnwatchesAt(s, events, k, n - 1)))
  }

  lemma {:induction false} SinceIsByLast(s: System, events: seq<Event>, k: string, n: nat, j: nat)
    requires s.table.Valid() && n <= |events| && WatchedSince(s, events, k, n, j)
    ensures WatchedByLast(s, events, k, n)
  {
    if j + 1 < n {
      SinceIsByLast(s, events, k, n - 1, j);
      assert !UnwatchesAt(s, events, k, n - 1);
    }
  }

  lemma SinceGoesOn(s: System, events: seq<Event>, k: string, n: nat, j: nat)
    requires s.table.Valid() && n < |events| && WatchedSince(s, events, k, n, j) && !UnwatchesAt(s, events, k, n)
    ensures WatchedSince(s, events, k, n + 1, j)
  {
  }

  lemma {:induction false} ByLastIsSince(s: System, events: seq<Event>, k: string, n: nat) returns (j: nat)
    requires s.table.Valid() && n <= |events| && WatchedByLast(s, events, k, n)
    ensures WatchedSince(s, events, k, n, j)
  {
    if WatchesAt(s, events, k, n - 1) { return n - 1; }
    j := ByLastIsSince(s, events, k, n - 1);
    SinceGoesOn(s, events, k, n - 1, j);
  }

  lemma InTableNext(s: System, events: seq<Event>, k: string, n: nat)
    requires Inv(s) && n < |events|
    ensures k in RunFrom(s, events[..n + 1]).table.data
      <==> WatchesAt(s, events, k, n) || (k in RunFrom(s, events[..n]).table.data && !UnwatchesAt(s, events, k, n))
  {
    RunFromKeepsInv(s, events[..n]);
    RunFromNext(s, events, n);
    TableAfter(RunFrom(s, events[..n]), events[n], k);
  }

  lemma {:induction false} InTableByLast(s: System, events: seq<Event>, k: string, n: nat)
    requires Inv(s) && k !in s.table.data && n <= |events|
    ensures k in RunFrom(s, events[..n]).table.data <==> WatchedByLast(s, events, k, n)
  {
    if n > 0 {
      InTableByLast(s, events, k, n - 1);
      InTableNext(s, events, k, n - 1);
    }
  }

  lemma WatchedAgainIff(s: System, events: seq<Event>, k: string, n: nat)
    requires Inv(s) && k !in s.table.data && n <= |events|
    ensures k in RunFrom(s, events[..n]).table.data <==> WatchedAgain(s, events, k, n)
  {
    InTableByLast(s, events, k, n);
    if WatchedByLast(s, events, k, n) { var j := ByLastIsSince(s, events, k, n); }
    if j: nat :| WatchedSince(s, events, k, n, j) { SinceIsByLast(s, events, k, n, j); }
  }

  lemma PoppedIsGone(s: System, t: nat, e: Entry)
    requires Inv(s) && At(s, t).Enforcing? && e in ToTerminate(At(Step(s, EnforceLocked(t)), t))
    ensures e.runtime.sid !in Step(s, EnforceLocked(t)).table.data
  {
    var now := At(s, t).now;
    EnforceStep(s, t);
    OverdueHas(s.table.Values(), now, s.limit);
    ValuesAreEntries(s.table, e);
    TableAfter(s, EnforceLocked(t), e.runtime.sid);
  }

  /** Once a thread has popped what is overdue, other threads go on, and at any time before the popped
      runtime is terminated it is watched if and only if it was watched again and not taken out since. */
  lemma TerminatedIsWatchedIff(s: System, t: nat, e: Entry, events: seq<Event>)
    requires Inv(s) && At(s, t).Enforcing? && e in ToTerminate(At(Step(s, EnforceLocked(t)), t))
    ensures Inv(Step(s, EnforceLocked(t)))
    ensures var popped := Step(s, EnforceLocked(t));
      e.runtime.sid in RunFrom(popped, events).table.data <==>
      WatchedAgain(popped, events, e.runtime.sid, |events|)
  {
    StepKeepsInv(s, EnforceLocked(t));
    PoppedIsGone(s, t, e);
    WatchedAgainIff(Step(s, EnforceLocked(t)), events, e.runtime.sid, |events|);
    assert events[..|events|] == events;
  }
}
