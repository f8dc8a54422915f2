/** The watchdog with any number of threads: what holds however their steps interleave. Each
    lock-protected section is one step; reading the clock, detaching and terminating are steps of their own. */
module WatchdogRuns {
  import opened PyText
  import opened PyCollections
  import opened Watchdog

  /** Where a thread stands. */
  datatype Local =
    | Idle
    | Watching(r: Runtime, key: string, session: Option<string>, now: int)   // has read the clock, not yet the lock
    | Unwatching(e: Entry)                                                  // has popped, not yet detached
    | Enforcing(now: int)
    | Draining(todo: seq<Entry>)                                            // detaches the first next
    | Terminating(e: Entry, todo: seq<Entry>)                               // has detached `e`

  /** How a watch epoch ended: by unwatch or by timeout, at which time and under which limit. */
  datatype End = End(entry: Entry, timeout: bool, at: int, limit: int)

  datatype System = System(limit: int, clock: int, table: Table, attached: set<nat>, next: nat,
                           threads: map<nat, Local>, ended: seq<End>, detached: set<nat>, terminated: seq<Entry>)

  datatype Event =
    | Tick(dt: nat) | Configure(limit: int)
    | WatchBegin(t: nat, r: Runtime, key: string, session: Option<string>) | WatchLocked(t: nat)
    | UnwatchLocked(t: nat, sid: string) | Beat(sid: string)
    | EnforceBegin(t: nat) | EnforceLocked(t: nat)
    | Detach(t: nat) | Terminate(t: nat)

  function At(s: System, t: nat): Local { if t in s.threads then s.threads[t] else Idle }

  function Move(s: System, t: nat, l: Local): System { s.(threads := s.threads[t := l]) }

  function Ends(entries: seq<Entry>, at: int, limit: int): seq<End> {
    if entries == [] then []
    else Ends(entries[..|entries| - 1], at, limit) + [End(entries[|entries| - 1], true, at, limit)]
  }

  predicate Enabled(s: System, ev: Event) {
    match ev
    case Tick(_) => true
    case Configure(_) => true
    case Beat(_) => true
    case WatchBegin(t, _, _, _) => At(s, t).Idle?
    case WatchLocked(t) => At(s, t).Watching?
    case UnwatchLocked(t, _) => At(s, t).Idle?
    case EnforceBegin(t) => At(s, t).Idle?
    case EnforceLocked(t) => At(s, t).Enforcing?
    case Detach(t) => At(s, t).Unwatching? || (At(s, t).Draining? && At(s, t).todo != [])
    case Terminate(t) => At(s, t).Terminating?
  }

  /** The next state; an event that is not enabled changes nothing. */
  function Step(s: System, ev: Event): System
    requires s.table.Valid()
  {
    if !Enabled(s, ev) then s
    else
      match ev
      case Tick(dt) => s.(clock := s.clock + dt)
      case Configure(limit) => s.(limit := limit)
      case Beat(sid) => if s.limit <= 0 then s else s.(table := Beaten(s.table, sid, s.clock))
      case WatchBegin(t, r, key, session) =>
        if Ignored(r, s.limit) then s else Move(s, t, Watching(r, key, session, s.clock))
      case WatchLocked(t) => Move(WatchStep(s, At(s, t)), t, Idle)
      case UnwatchLocked(t, sid) =>
        if sid in s.table.data then Move(PopStep(s, sid), t, Unwatching(s.table.data[sid])) else s
      case EnforceBegin(t) => if s.limit <= 0 then s else Move(s, t, Enforcing(s.clock))
      case EnforceLocked(t) =>
        var now, entries := At(s, t).now, s.table.Values();
        var overdue := Overdue(entries, now, s.limit);
        Move(s.(table := Enforced(s.table, entries, now, s.limit), ended := s.ended + Ends(overdue, s.clock, s.limit)),
             t, if overdue == [] then Idle else Draining(overdue))
      case Detach(t) =>
        (match At(s, t)
         case Unwatching(e) => Move(Detached(s, e), t, Idle)
         case Draining(todo) => Move(Detached(s, todo[0]), t, Terminating(todo[0], todo[1..]))
         case _ => s)
      case Terminate(t) =>
        var rest := At(s, t).todo;
        Move(s.(terminated := s.terminated + [At(s, t).e]), t, if rest == [] then Idle else Draining(rest))
  }

  function WatchStep(s: System, l: Local): System
    requires l.Watching?
  {
    var table := Watched(s.table, l.r, l.key, l.session, l.now, s.next);
    if l.r.sid in s.table.data then s.(table := table)
    else s.(table := table, attached := s.attached + {s.next}, next := s.next + 1)
  }

  function PopStep(s: System, sid: string): System
    requires sid in s.table.data
  {
    s.(table := Popped(s.table, sid), ended := s.ended + [End(s.table.data[sid], false, s.clock, s.limit)])
  }

  function Detached(s: System, e: Entry): System {
    s.(attached := s.attached - {e.listener}, detached := s.detached + {e.listener})
  }

  /** A thread's watch, when nobody comes between its two parts, enters the runtime with the time it read, unless
      the watchdog is off or the runtime has no event stream: then nothing happens. */
  lemma WatchEnters(s: System, t: nat, r: Runtime, key: string, session: Option<string>)
    requires s.table.Valid() && At(s, t).Idle?
    ensures Step(s, WatchBegin(t, r, key, session)).table == s.table
    ensures var after := Step(Step(s, WatchBegin(t, r, key, session)), WatchLocked(t));
      if s.limit > 0 && r.hasStream then
        && r.sid in after.table.data
        && after.table.data[r.sid].runtime == r && after.table.data[r.sid].lastActivity == s.clock
        && At(after, t).Idle?
      else after == s
  {
  }

  // ----- the invariant -----------------------------------------------------------------

  /** The listeners of the watched entries. */
  function TableListeners(t: Table): set<nat> { set k | k in t.data :: t.data[k].listener }

  function EndedListeners(ended: seq<End>): set<nat> { set i | 0 <= i < |ended| :: ended[i].entry.listener }

  /** What a thread has popped and not yet detached. */
  function Pending(l: Local): seq<Entry> {
    match l case Unwatching(e) => [e] case Draining(todo) => todo case Terminating(_, todo) => todo case _ => []
  }

  predicate TableOk(t: Table, clock: int, next: nat) {
    && (forall k :: k in t.data ==> t.data[k].runtime.sid == k && t.data[k].listener < next)
    && (forall k :: k in t.data ==> t.data[k].lastActivity <= t.data[k].heard <= clock)
    && forall j, k :: j in t.data && k in t.data && t.data[j].listener == t.data[k].listener ==> j == k
  }

  /** Each epoch ended at most once, is not watched any more, and timed out only when it was overdue. */
  predicate EndsOk(t: Table, ended: seq<End>, next: nat) {
    && (forall i, j :: 0 <= i < j < |ended| ==> ended[i].entry.listener != ended[j].entry.listener)
    && (forall i :: 0 <= i < |ended| ==> ended[i].entry.listener < next)
    && (forall i, k :: 0 <= i < |ended| && k in t.data ==> ended[i].entry.listener != t.data[k].listener)
    && forall i :: 0 <= i < |ended| && ended[i].timeout ==> ended[i].at - ended[i].entry.lastActivity > ended[i].limit
  }

  /** Attached are exactly the listeners of watched entries and of popped ones not yet detached. */
  predicate ListenersOk(t: Table, attached: set<nat>, ended: seq<End>, detached: set<nat>) {
    attached == TableListeners(t) + (EndedListeners(ended) - detached) && detached <= EndedListeners(ended)
  }

  /** Threads read clocks of the past and hold only what was popped; and what was popped and not
      detached is held by some thread. */
  ghost predicate ThreadsOk(s: System) {
    && (forall t :: t in s.threads && s.threads[t].Watching? ==> s.threads[t].now <= s.clock)
    && (forall t :: t in s.threads && s.threads[t].Enforcing? ==> s.threads[t].now <= s.clock)
    && (forall t, e :: t in s.threads && e in Pending(s.threads[t]) ==> e.listener in EndedListeners(s.ended))
    && forall h :: h in EndedListeners(s.ended) - s.detached ==> HeldBySome(s.threads, h)
  }

  ghost predicate HeldBySome(threads: map<nat, Local>, h: nat) {
    exists t, e :: t in threads && e in Pending(threads[t]) && e.listener == h
  }

  ghost predicate Inv(s: System) {
    && s.table.Valid() && TableOk(s.table, s.clock, s.next)
    && EndsOk(s.table, s.ended, s.next) && ListenersOk(s.table, s.attached, s.ended, s.detached) && ThreadsOk(s)
  }

  // ----- one pop -----------------------------------------------------------------------

  lemma PopListeners(t: Table, sid: string)
    requires t.Valid() && sid in t.data
    requires forall j, k :: j in t.data && k in t.data && t.data[j].listener == t.data[k].listener ==> j == k
    ensures Popped(t, sid).Valid()
    ensures TableListeners(Popped(t, sid)) == TableListeners(t) - {t.data[sid].listener}
    ensures t.data[sid].listener in TableListeners(t)
  {
    var after := Popped(t, sid);
    forall h | h in TableListeners(t) - {t.data[sid].listener} ensures h in TableListeners(after) {
      var k :| k in t.data && t.data[k].listener == h;
      assert k in after.data;
    }
  }

  lemma EndedSnoc(ended: seq<End>, e: End)
    ensures EndedListeners(ended + [e]) == EndedListeners(ended) + {e.entry.listener}
  {
    var more := ended + [e];
    forall h | h in EndedListeners(ended) + {e.entry.listener} ensures h in EndedListeners(more) {
      if h == e.entry.listener {
        assert more[|ended|].entry.listener == h;
      } else {
        var i :| 0 <= i < |ended| && ended[i].entry.listener == h;
        assert more[i].entry.listener == h;
      }
    }
  }

  lemma PopKeepsTable(t: Table, sid: string, clock: int, next: nat)
    requires t.Valid() && TableOk(t, clock, next)
    ensures Popped(t, sid).Valid() && TableOk(Popped(t, sid), clock, next)
  {
  }

  lemma PopKeepsEnds(t: Table, sid: string, end: End, ended: seq<End>, clock: int, next: nat)
    requires TableOk(t, clock, next) && EndsOk(t, ended, next) && sid in t.data && end.entry == t.data[sid]
    requires end.timeout ==> end.at - end.entry.lastActivity > end.limit
    ensures EndsOk(Popped(t, sid), ended + [end], next)
  {
    var all := ended + [end];
    assert forall i :: 0 <= i < |ended| ==> all[i] == ended[i];
  }

  lemma EndedAreNotWatched(t: Table, sid: string, ended: seq<End>, next: nat)
    requires EndsOk(t, ended, next) && sid in t.data
    ensures t.data[sid].listener !in EndedListeners(ended)
  {
  }

  /** Popping an entry ends its epoch: it was not ended before, and its listener stays attached for now. */
  lemma PopKeepsOk(t: Table, sid: string, end: End, ended: seq<End>, attached: set<nat>, detached: set<nat>,
                   clock: int, next: nat)
    requires t.Valid() && TableOk(t, clock, next) && EndsOk(t, ended, next) && ListenersOk(t, attached, ended, detached)
    requires sid in t.data && end.entry == t.data[sid]
    requires end.timeout ==> end.at - end.entry.lastActivity > end.limit
    ensures Popped(t, sid).Valid() && TableOk(Popped(t, sid), clock, next)
    ensures EndsOk(Popped(t, sid), ended + [end], next)
    ensures ListenersOk(Popped(t, sid), attached, ended + [end], detached)
  {
    PopKeepsTable(t, sid, clock, next);
    PopKeepsEnds(t, sid, end, ended, clock, next);
    PopListeners(t, sid);
    EndedSnoc(ended, end);
    EndedAreNotWatched(t, sid, ended, next);
  }

  /** The invariant of the shared state, for a table and a history of ends. */
  predicate SharedOk(t: Table, ended: seq<End>, attached: set<nat>, detached: set<nat>, clock: int, next: nat) {
    TableOk(t, clock, next) && EndsOk(t, ended, next) && ListenersOk(t, attached, ended, detached)
  }

  lemma PopLeavesOthers(t: Table, sid: string, k: string)
    requires t.Valid() && k in t.data && k != sid
    ensures Popped(t, sid).Valid() && k in Popped(t, sid).data && Popped(t, sid).data[k] == t.data[k]
  {
  }

  /** While enforcement goes through the table, the entries not looked at yet are still in it. */
  lemma {:induction false} EnforcedLeavesRest(t: Table, now: int, limit: int, n: nat, j: nat)
    requires t.Valid() && n <= j < |t.order| && forall k :: k in t.data ==> t.data[k].runtime.sid == k
    ensures var after := Enforced(t, t.Values()[..n], now, limit);
      after.Valid() && t.order[j] in after.data && after.data[t.order[j]] == t.Values()[j]
  {
    if n > 0 {
      var e := t.Values()[n - 1];
      EnforcedLeavesRest(t, now, limit, n - 1, j);
      OneMoreEntry(t, t.Values(), n - 1, now, limit);
      assert e.runtime.sid == t.order[n - 1];
      PopLeavesOthers(Enforced(t, t.Values()[..n - 1], now, limit), e.runtime.sid, t.order[j]);
    }
  }

  /** One pop of enforcement, `overdue` being popped already. */
  lemma OverduePopKeepsOk(s: System, t: Table, overdue: seq<Entry>, e: Entry)
    requires t.Valid() && e.runtime.sid in t.data && t.data[e.runtime.sid] == e && s.clock - e.lastActivity > s.limit
    requires SharedOk(t, s.ended + Ends(overdue, s.clock, s.limit), s.attached, s.detached, s.clock, s.next)
    ensures Popped(t, e.runtime.sid).Valid()
    ensures SharedOk(Popped(t, e.runtime.sid), s.ended + Ends(overdue + [e], s.clock, s.limit),
                     s.attached, s.detached, s.clock, s.next)
  {
    PopKeepsOk(t, e.runtime.sid, End(e, true, s.clock, s.limit), s.ended + Ends(overdue, s.clock, s.limit),
               s.attached, s.detached, s.clock, s.next);
    EndsSnoc(s.ended, overdue, e, s.clock, s.limit);
  }

  /** Enforcement is pops in a row; `n` of the entries have been looked at. */
  lemma {:induction false} EnforcedKeepsOk(s: System, now: int, n: nat)
    requires s.table.Valid() && SharedOk(s.table, s.ended, s.attached, s.detached, s.clock, s.next)
    requires now <= s.clock && n <= |s.table.order|
    ensures var entries := s.table.Values()[..n];
      var t := Enforced(s.table, entries, now, s.limit);
      && t.Valid()
      && SharedOk(t, s.ended + Ends(Overdue(entries, now, s.limit), s.clock, s.limit),
                  s.attached, s.detached, s.clock, s.next)
  {
    var all := s.table.Values();
    if n == 0 {
      assert s.ended + Ends([], s.clock, s.limit) == s.ended;
    } else {
      EnforcedKeepsOk(s, now, n - 1);
      OneMoreEntry(s.table, all, n - 1, now, s.limit);
      if IsOverdue(all[n - 1], now, s.limit) {
        EnforcedLeavesRest(s.table, now, s.limit, n - 1, n - 1);
        assert all[n - 1].runtime.sid == s.table.order[n - 1];
        OverduePopKeepsOk(s, Enforced(s.table, all[..n - 1], now, s.limit), Overdue(all[..n - 1], now, s.limit),
                          all[n - 1]);
      }
    }
  }

  lemma EndsSnoc(ended: seq<End>, overdue: seq<Entry>, e: Entry, at: int, limit: int)
    ensures ended + Ends(overdue + [e], at, limit) == ended + Ends(overdue, at, limit) + [End(e, true, at, limit)]
  {
    assert (overdue + [e])[..|overdue|] == overdue;
  }

  lemma {:induction false} EndsListeners(ended: seq<End>, entries: seq<Entry>, at: int, limit: int)
    ensures EndedListeners(ended + Ends(entries, at, limit)) == EndedListeners(ended) + Listeners(entries)
  {
    if entries == [] {
      assert ended + Ends([], at, limit) == ended;
    } else {
      var n := |entries| - 1;
      EndsListeners(ended, entries[..n], at, limit);
      EndsSnoc(ended, entries[..n], entries[n], at, limit);
      assert entries[..n] + [entries[n]] == entries;
      EndedSnoc(ended + Ends(entries[..n], at, limit), End(entries[n], true, at, limit));
      ListenersSnoc(entries[..n], entries[n]);
    }
  }

  lemma ListenersSnoc(entries: seq<Entry>, e: Entry)
    ensures Listeners(entries + [e]) == Listeners(entries) + {e.listener}
  {
    var more := entries + [e];
    forall h | h in Listeners(entries) + {e.listener} ensures h in Listeners(more) {
      if h == e.listener {
        assert more[|entries|].listener == h;
      } else {
        var i :| 0 <= i < |entries| && entries[i].listener == h;
        assert more[i].listener == h;
      }
    }
  }

  // ----- threads -----------------------------------------------------------------------

  lemma HeldAfterMove(threads: map<nat, Local>, t: nat, l: Local, h: nat)
    requires HeldBySome(threads, h)
    requires t in threads ==> forall e :: e in Pending(threads[t]) && e.listener == h ==> e in Pending(l)
    ensures HeldBySome(threads[t := l], h)
  {
    var u, e :| u in threads && e in Pending(threads[u]) && e.listener == h;
    assert u in threads[t := l] && e in Pending(threads[t := l][u]);
  }

  /** A thread that holds nothing takes over `l`, whose entries have ended; nothing is lost. */
  lemma TakeOver(s: System, after: System, t: nat, l: Local)
    requires ThreadsOk(s) && Pending(At(s, t)) == []
    requires after.threads == s.threads[t := l] && after.clock == s.clock && after.detached == s.detached
    requires l.Watching? || l.Enforcing? ==> l.now <= s.clock
    requires EndedListeners(after.ended) == EndedListeners(s.ended) + Listeners(Pending(l))
    ensures ThreadsOk(after)
  {
    forall u, e | u in after.threads && e in Pending(after.threads[u])
      ensures e.listener in EndedListeners(after.ended)
    {
      if u == t {
        var i :| 0 <= i < |Pending(l)| && Pending(l)[i] == e;
        assert Pending(l)[i].listener in Listeners(Pending(l));
      }
    }
    forall h | h in EndedListeners(after.ended) - after.detached ensures HeldBySome(after.threads, h) {
      if h in EndedListeners(s.ended) {
        HeldAfterMove(s.threads, t, l, h);
      } else {
        var i :| 0 <= i < |Pending(l)| && Pending(l)[i].listener == h;
        assert t in after.threads && Pending(l)[i] in Pending(after.threads[t]);
      }
    }
  }

  /** A thread detaches the entry `e` it holds and goes on with the rest. */
  lemma LetGo(s: System, after: System, t: nat, l: Local, e: Entry)
    requires ThreadsOk(s) && t in s.threads && e in Pending(s.threads[t])
    requires forall x :: x in Pending(s.threads[t]) ==> x == e || x in Pending(l)
    requires forall x :: x in Pending(l) ==> x in Pending(s.threads[t])
    requires !l.Watching? && !l.Enforcing?
    requires after.threads == s.threads[t := l] && after.clock == s.clock && after.ended == s.ended
    requires after.detached == s.detached + {e.listener}
    ensures ThreadsOk(after)
  {
    forall h | h in EndedListeners(after.ended) - after.detached ensures HeldBySome(after.threads, h) {
      HeldAfterMove(s.threads, t, l, h);
    }
  }

  lemma DetachKeepsListeners(t: Table, ended: seq<End>, attached: set<nat>, detached: set<nat>, next: nat, h: nat)
    requires EndsOk(t, ended, next) && ListenersOk(t, attached, ended, detached) && h in EndedListeners(ended)
    ensures ListenersOk(t, attached - {h}, ended, detached + {h})
  {
    var i :| 0 <= i < |ended| && ended[i].entry.listener == h;
    forall k | k in t.data ensures t.data[k].listener != h {}
    assert h !in TableListeners(t);
  }

  // ----- every step keeps the invariant ------------------------------------------------

  lemma WatchedKeepsOk(s: System, l: Local)
    requires Inv(s) && l.Watching? && l.now <= s.clock
    ensures var after := WatchStep(s, l);
      after.table.Valid() && SharedOk(after.table, after.ended, after.attached, after.detached, after.clock, after.next)
  {
    var t := s.table;
    var after := WatchStep(s, l);
    var sid := l.r.sid;
    if sid in t.data {
      assert after.table.data.Keys == t.data.Keys;
      SameListeners(t, after.table);
    } else {
      forall h | h in TableListeners(t) + {s.next} ensures h in TableListeners(after.table) {
        if h != s.next {
          var k :| k in t.data && t.data[k].listener == h;
          assert after.table.data[k] == t.data[k];
        } else {
          assert after.table.data[sid].listener == h;
        }
      }
    }
  }

  lemma SameListeners(a: Table, b: Table)
    requires a.data.Keys == b.data.Keys && forall k :: k in a.data ==> a.data[k].listener == b.data[k].listener
    ensures TableListeners(a) == TableListeners(b)
  {
    forall h | h in TableListeners(a) ensures h in TableListeners(b) {
      var k :| k in a.data && a.data[k].listener == h;
      assert b.data[k].listener == h;
    }
    forall h | h in TableListeners(b) ensures h in TableListeners(a) {
      var k :| k in b.data && b.data[k].listener == h;
      assert a.data[k].listener == h;
    }
  }

  lemma BeatKeepsOk(s: System, sid: string)
    requires Inv(s)
    ensures var t := Beaten(s.table, sid, s.clock);
      t.Valid() && SharedOk(t, s.ended, s.attached, s.detached, s.clock, s.next)
  {
    SameListeners(s.table, Beaten(s.table, sid, s.clock));
  }

  lemma ListenersOfOne(e: Entry)
    ensures Listeners([e]) == {e.listener} && Listeners([]) == {}
  {
    ListenersSnoc([], e);
    assert [] + [e] == [e];
  }

  lemma UnwatchKeepsInv(s: System, t: nat, sid: string)
    requires Inv(s) && At(s, t).Idle? && sid in s.table.data
    ensures Inv(Step(s, UnwatchLocked(t, sid)))
  {
    var e := s.table.data[sid];
    var end := End(e, false, s.clock, s.limit);
    PopKeepsOk(s.table, sid, end, s.ended, s.attached, s.detached, s.clock, s.next);
    EndedSnoc(s.ended, end);
    ListenersOfOne(e);
    TakeOver(s, Step(s, UnwatchLocked(t, sid)), t, Unwatching(e));
  }

  lemma EnforceKeepsShared(s: System, now: int)
    requires Inv(s) && now <= s.clock
    ensures var entries := s.table.Values();
      var t := Enforced(s.table, entries, now, s.limit);
      var ended := s.ended + Ends(Overdue(entries, now, s.limit), s.clock, s.limit);
      && t.Valid() && SharedOk(t, ended, s.attached, s.detached, s.clock, s.next)
      && EndedListeners(ended) == EndedListeners(s.ended) + Listeners(Overdue(entries, now, s.limit))
  {
    var entries := s.table.Values();
    EnforcedKeepsOk(s, now, |entries|);
    assert entries[..|entries|] == entries;
    EndsListeners(s.ended, Overdue(entries, now, s.limit), s.clock, s.limit);
  }

  /** Where the locked part of enforcement leads. */
  function EnforceNext(s: System, t: nat, now: int): System
    requires s.table.Valid()
  {
    var entries := s.table.Values();
    var overdue := Overdue(entries, now, s.limit);
    System(s.limit, s.clock, Enforced(s.table, entries, now, s.limit), s.attached, s.next,
           s.threads[t := if overdue == [] then Idle else Draining(overdue)],
           s.ended + Ends(overdue, s.clock, s.limit), s.detached, s.terminated)
  }

  lemma EnforceStep(s: System, t: nat)
    requires s.table.Valid() && At(s, t).Enforcing?
    ensures Step(s, EnforceLocked(t)) == EnforceNext(s, t, At(s, t).now)
  {
  }

  lemma EnforceNextKeepsInv(s: System, t: nat, now: int)
    requires Inv(s) && now <= s.clock && Pending(At(s, t)) == []
    ensures Inv(EnforceNext(s, t, now))
  {
    EnforceKeepsShared(s, now);
    var overdue := Overdue(s.table.Values(), now, s.limit);
    TakeOver(s, EnforceNext(s, t, now), t, if overdue == [] then Idle else Draining(overdue));
  }

  lemma EnforceKeepsInv(s: System, t: nat)
    requires Inv(s) && At(s, t).Enforcing?
    ensures Inv(Step(s, EnforceLocked(t)))
  {
    EnforceStep(s, t);
    EnforceNextKeepsInv(s, t, At(s, t).now);
  }

  lemma UnwatchingDetachKeepsInv(s: System, t: nat, e: Entry)
    requires Inv(s) && At(s, t) == Unwatching(e)
    ensures Inv(Step(s, Detach(t)))
  {
    DetachKeepsListeners(s.table, s.ended, s.attached, s.detached, s.next, e.listener);
    LetGo(s, Step(s, Detach(t)), t, Idle, e);
  }

  lemma DrainingDetachKeepsInv(s: System, t: nat, todo: seq<Entry>)
    requires Inv(s) && At(s, t) == Draining(todo) && todo != []
    ensures Inv(Step(s, Detach(t)))
  {
    assert todo[0] in Pending(s.threads[t]);
    assert forall x :: x in todo ==> x == todo[0] || x in todo[1..];
    DetachKeepsListeners(s.table, s.ended, s.attached, s.detached, s.next, todo[0].listener);
    LetGo(s, Step(s, Detach(t)), t, Terminating(todo[0], todo[1..]), todo[0]);
  }

  lemma DetachKeepsInv(s: System, t: nat)
    requires Inv(s) && Enabled(s, Detach(t))
    ensures Inv(Step(s, Detach(t)))
  {
    match At(s, t) {
      case Unwatching(e) => UnwatchingDetachKeepsInv(s, t, e);
      case Draining(todo) => DrainingDetachKeepsInv(s, t, todo);
    }
  }

  lemma TerminateKeepsInv(s: System, t: nat)
    requires Inv(s) && At(s, t).Terminating?
    ensures Inv(Step(s, Terminate(t)))
  {
    var after := Step(s, Terminate(t));
    var rest := At(s, t).todo;
    var l := if rest == [] then Idle else Draining(rest);
    forall h | h in EndedListeners(after.ended) - after.detached ensures HeldBySome(after.threads, h) {
      HeldAfterMove(s.threads, t, l, h);
    }
  }

  lemma WatchLeaves(s: System, l: Local)
    requires l.Watching?
    ensures var after := WatchStep(s, l);
      && after.threads == s.threads && after.clock == s.clock && after.ended == s.ended && after.detached == s.detached
  {
  }

  lemma WatchMoves(s: System, t: nat, watched: System)
    requires s.table.Valid() && At(s, t).Watching? && watched == WatchStep(s, At(s, t))
    ensures Step(s, WatchLocked(t)) == Move(watched, t, Idle)
  {
  }

  lemma IdleKeepsInv(s: System, t: nat, watched: System)
    requires ThreadsOk(s) && Pending(At(s, t)) == [] && watched.table.Valid()
    requires SharedOk(watched.table, watched.ended, watched.attached, watched.detached, watched.clock, watched.next)
    requires watched.threads == s.threads && watched.clock == s.clock
    requires watched.ended == s.ended && watched.detached == s.detached
    ensures Inv(Move(watched, t, Idle))
  {
    assert Listeners([]) == {};
    TakeOver(s, Move(watched, t, Idle), t, Idle);
  }

  lemma WatchKeepsInv(s: System, t: nat)
    requires Inv(s) && At(s, t).Watching?
    ensures Inv(Step(s, WatchLocked(t)))
  {
    var watched := WatchStep(s, At(s, t));
    WatchedKeepsOk(s, At(s, t));
    WatchLeaves(s, At(s, t));
    WatchMoves(s, t, watched);
    IdleKeepsInv(s, t, watched);
  }

  /** No step, of whatever thread, breaks the invariant. */
  lemma StepKeepsInv(s: System, ev: Event)
    requires Inv(s)
    ensures Inv(Step(s, ev))
  {
    if Enabled(s, ev) {
      match ev
      case Tick(_) =>
      case Configure(_) =>
      case Beat(sid) => BeatKeepsOk(s, sid);
      case WatchBegin(t, r, key, session) =>
        if !Ignored(r, s.limit) { NothingPending(s, t, Watching(r, key, session, s.clock)); }
      case WatchLocked(t) => WatchKeepsInv(s, t);
      case UnwatchLocked(t, sid) => if sid in s.table.data { UnwatchKeepsInv(s, t, sid); }
      case EnforceBegin(t) => if s.limit > 0 { NothingPending(s, t, Enforcing(s.clock)); }
      case EnforceLocked(t) => EnforceKeepsInv(s, t);
      case Detach(t) => DetachKeepsInv(s, t);
      case Terminate(t) => TerminateKeepsInv(s, t);
    }
  }

  lemma NothingPending(s: System, t: nat, l: Local)
    requires Inv(s) && Pending(At(s, t)) == [] && Pending(l) == []
    requires l.Watching? || l.Enforcing? ==> l.now <= s.clock
    ensures Inv(Move(s, t, l))
  {
    assert Listeners([]) == {};
    TakeOver(s, Move(s, t, l), t, l);
  }

  // ----- whole runs --------------------------------------------------------------------

  function Start(limit: int, clock: int): System {
    System(limit, clock, EmptyDict(), {}, 0, map[], [], {}, [])
  }

  function Run(limit: int, clock: int, events: seq<Event>): (s: System)
    ensures s.table.Valid()
  {
    if events == [] then Start(limit, clock)
    else
      var before, ev := Run(limit, clock, events[..|events| - 1]), events[|events| - 1];
      StepKeepsTableValid(before, ev);
      Step(before, ev)
  }

  lemma {:induction false} EnforcedValid(t: Table, entries: seq<Entry>, now: int, limit: int)
    requires t.Valid()
    ensures Enforced(t, entries, now, limit).Valid()
  {
    if entries != [] { EnforcedValid(t, entries[..|entries| - 1], now, limit); }
  }

  lemma StepKeepsTableValid(s: System, ev: Event)
    requires s.table.Valid()
    ensures Step(s, ev).table.Valid()
  {
    if ev.EnforceLocked? && Enabled(s, ev) { EnforcedValid(s.table, s.table.Values(), At(s, ev.t).now, s.limit); }
  }

  lemma {:induction false} RunKeepsInv(limit: int, clock: int, events: seq<Event>)
    ensures Inv(Run(limit, clock, events))
  {
    if events != [] {
      RunKeepsInv(limit, clock, events[..|events| - 1]);
      StepKeepsInv(Run(limit, clock, events[..|events| - 1]), events[|events| - 1]);
    }
  }

  /** Safety under any interleaving: a timeout ends an epoch only when the entry's last activity was
      older than the limit at that moment; an epoch ends at most once; what has ended is not watched. */
  lemma EpochsEndOnceAndOnlyWhenOverdue(limit: int, clock: int, events: seq<Event>)
    ensures var s := Run(limit, clock, events);
      && (forall i :: 0 <= i < |s.ended| && s.ended[i].timeout ==>
          s.ended[i].at - s.ended[i].entry.lastActivity > s.ended[i].limit)
      && (forall i, j :: 0 <= i < j < |s.ended| ==> s.ended[i].entry.listener != s.ended[j].entry.listener)
      && (forall i, k :: 0 <= i < |s.ended| && k in s.table.data ==>
          s.ended[i].entry.listener != s.table.data[k].listener)
  {
    RunKeepsInv(limit, clock, events);
  }

  /** No listener leaks: every attached one belongs to a watched entry or to a popped one that some
      thread has yet to detach; so when all threads are idle, exactly the watched entries are listened to. */
  lemma NoListenerLeaks(limit: int, clock: int, events: seq<Event>)
    ensures var s := Run(limit, clock, events);
      && (forall h :: h in s.attached ==> h in TableListeners(s.table) || HeldBySome(s.threads, h))
      && TableListeners(s.table) <= s.attached
      && ((forall t :: t in s.threads ==> s.threads[t].Idle?) ==> s.attached == TableListeners(s.table))
  {
    RunKeepsInv(limit, clock, events);
  }

  // ----- who is terminated -------------------------------------------------------------

  /** What a thread has popped for timeout and not yet terminated. */
  function ToTerminate(l: Local): seq<Entry> {
    match l case Draining(todo) => todo case Terminating(e, todo) => [e] + todo case _ => []
  }

  ghost predicate TimedOut(ended: seq<End>, e: Entry) {
    exists i :: 0 <= i < |ended| && ended[i].timeout && ended[i].entry == e
  }

  ghost predicate OnlyTimedOut(s: System) {
    && (forall t, e :: t in s.threads && e in ToTerminate(s.threads[t]) ==> TimedOut(s.ended, e))
    && forall e :: e in s.terminated ==> TimedOut(s.ended, e)
  }

  lemma TimedOutStays(ended: seq<End>, more: seq<End>, e: Entry)
    requires TimedOut(ended, e)
    ensures TimedOut(ended + more, e)
  {
    var i :| 0 <= i < |ended| && ended[i].timeout && ended[i].entry == e;
    assert (ended + more)[i] == ended[i];
  }

  lemma {:induction false} EndsAreTimedOut(ended: seq<End>, entries: seq<Entry>, at: int, limit: int)
    ensures forall e :: e in entries ==> TimedOut(ended + Ends(entries, at, limit), e)
  {
    if entries != [] {
      var n := |entries| - 1;
      EndsAreTimedOut(ended, entries[..n], at, limit);
      assert entries == entries[..n] + [entries[n]];
      EndsSnoc(ended, entries[..n], entries[n], at, limit);
      var all := ended + Ends(entries[..n], at, limit);
      forall e | e in entries ensures TimedOut(all + [End(entries[n], true, at, limit)], e) {
        if e in entries[..n] {
          TimedOutStays(all, [End(entries[n], true, at, limit)], e);
        } else {
          assert (all + [End(entries[n], true, at, limit)])[|all|].entry == e;
        }
      }
    }
  }

  lemma EnforceKeepsOnlyTimedOut(s: System, t: nat)
    requires s.table.Valid() && OnlyTimedOut(s) && At(s, t).Enforcing?
    ensures OnlyTimedOut(Step(s, EnforceLocked(t)))
  {
    var after := Step(s, EnforceLocked(t));
    var overdue := Overdue(s.table.Values(), At(s, t).now, s.limit);
    EndsAreTimedOut(s.ended, overdue, s.clock, s.limit);
    forall e | TimedOut(s.ended, e) ensures TimedOut(after.ended, e) {
      TimedOutStays(s.ended, Ends(overdue, s.clock, s.limit), e);
    }
  }

  lemma StepKeepsOnlyTimedOut(s: System, ev: Event)
    requires s.table.Valid() && OnlyTimedOut(s)
    ensures OnlyTimedOut(Step(s, ev))
  {
    if Enabled(s, ev) {
      match ev {
        case EnforceLocked(t) => EnforceKeepsOnlyTimedOut(s, t);
        case UnwatchLocked(t, sid) =>
          if sid in s.table.data {
            forall e | TimedOut(s.ended, e) ensures TimedOut(Step(s, ev).ended, e) {
              TimedOutStays(s.ended, [End(s.table.data[sid], false, s.clock, s.limit)], e);
            }
          }
        case Terminate(t) =>
          assert At(s, t).e in ToTerminate(s.threads[t]);
          assert forall e :: e in At(s, t).todo ==> e in ToTerminate(s.threads[t]);
        case Detach(t) =>
          if At(s, t).Draining? { assert [At(s, t).todo[0]] + At(s, t).todo[1..] == At(s, t).todo; }
        case _ =>
      }
    }
  }

  /** Under any interleaving only runtimes whose epoch ended by timeout are terminated. */
  lemma {:induction false} OnlyTimedOutAreTerminated(limit: int, clock: int, events: seq<Event>)
    ensures OnlyTimedOut(Run(limit, clock, events))
  {
    if events != [] {
      OnlyTimedOutAreTerminated(limit, clock, events[..|events| - 1]);
      StepKeepsOnlyTimedOut(Run(limit, clock, events[..|events| - 1]), events[|events| - 1]);
    }
  }

  // ----- last activity and the last sign of life ---------------------------------------

  /** A watch whose clock reading is older than the last sign of life of the entry it refreshes. */
  predicate Stale(s: System, ev: Event) {
    ev.WatchLocked? && At(s, ev.t).Watching? && At(s, ev.t).r.sid in s.table.data
    && At(s, ev.t).now < s.table.data[At(s, ev.t).r.sid].heard
  }

  predicate Exact(s: System) {
    && (forall k :: k in s.table.data ==> s.table.data[k].lastActivity == s.table.data[k].heard)
    && forall i :: 0 <= i < |s.ended| ==> s.ended[i].entry.lastActivity == s.ended[i].entry.heard
  }

  predicate NeverStale(limit: int, clock: int, events: seq<Event>) {
    events == [] || (NeverStale(limit, clock, events[..|events| - 1])
                     && !Stale(Run(limit, clock, events[..|events| - 1]), events[|events| - 1]))
  }

  lemma {:induction false} OverdueAreEntries(entries: seq<Entry>, now: int, limit: int)
    ensures forall e :: e in Overdue(entries, now, limit) ==> e in entries
  {
    if entries != [] {
      OverdueAreEntries(entries[..|entries| - 1], now, limit);
      assert entries == entries[..|entries| - 1] + [entries[|entries| - 1]];
    }
  }

  lemma {:induction false} EnforcedIsPart(t: Table, entries: seq<Entry>, now: int, limit: int)
    ensures forall k :: k in Enforced(t, entries, now, limit).data ==>
      k in t.data && Enforced(t, entries, now, limit).data[k] == t.data[k]
  {
    if entries != [] { EnforcedIsPart(t, entries[..|entries| - 1], now, limit); }
  }

  lemma {:induction false} EndsOfEntries(entries: seq<Entry>, at: int, limit: int)
    ensures |Ends(entries, at, limit)| == |entries|
    ensures forall i :: 0 <= i < |entries| ==> Ends(entries, at, limit)[i] == End(entries[i], true, at, limit)
  {
    if entries != [] { EndsOfEntries(entries[..|entries| - 1], at, limit); }
  }

  lemma EnforceKeepsExact(s: System, t: nat)
    requires s.table.Valid() && Exact(s) && At(s, t).Enforcing?
    ensures Exact(Step(s, EnforceLocked(t)))
  {
    var now, entries := At(s, t).now, s.table.Values();
    var overdue := Overdue(entries, now, s.limit);
    OverdueAreEntries(entries, now, s.limit);
    EnforcedIsPart(s.table, entries, now, s.limit);
    EndsOfEntries(overdue, s.clock, s.limit);
    forall i | 0 <= i < |overdue| ensures overdue[i].lastActivity == overdue[i].heard {
      assert overdue[i] in overdue;
    }
  }

  lemma StepKeepsExact(s: System, ev: Event)
    requires Inv(s) && Exact(s) && !Stale(s, ev)
    ensures Exact(Step(s, ev))
  {
    if Enabled(s, ev) {
      match ev {
        case EnforceLocked(t) => EnforceKeepsExact(s, t);
        case _ =>
      }
    }
  }

  lemma {:induction false} RunStaysExact(limit: int, clock: int, events: seq<Event>)
    requires NeverStale(limit, clock, events)
    ensures Exact(Run(limit, clock, events))
  {
    if events != [] {
      var before, ev := Run(limit, clock, events[..|events| - 1]), events[|events| - 1];
      RunStaysExact(limit, clock, events[..|events| - 1]);
      RunKeepsInv(limit, clock, events[..|events| - 1]);
      StepKeepsExact(before, ev);
    }
  }

  /** Without stale watches a timeout means that there was no sign of life for longer than the limit. */
  lemma TimeoutMeansSilence(limit: int, clock: int, events: seq<Event>, i: nat)
    requires NeverStale(limit, clock, events) && i < |Run(limit, clock, events).ended|
    ensures var end := Run(limit, clock, events).ended[i]; end.timeout ==> end.at - end.entry.heard > end.limit
  {
    RunKeepsInv(limit, clock, events);
    RunStaysExact(limit, clock, events);
  }

  lemma RunNext(limit: int, clock: int, events: seq<Event>, n: nat)
    requires n < |events|
    ensures Run(limit, clock, events[..n + 1]) == Step(Run(limit, clock, events[..n]), events[n])
  {
    assert events[..n + 1][..n] == events[..n];
  }

  /** A runtime is watched by one thread at time 10, and then again by a thread that had read the clock at 0. */
  lemma StaleWatchSetsBack(r: Runtime, table: Table)
    requires table == Dict([r.sid], map[r.sid := Entry(r, "k", None, 10, 10, 0, 10)])
    ensures Watched(EmptyDict(), r, "k", None, 10, 0) == table
    ensures Watched(table, r, "k", None, 0, 1) == Dict([r.sid], map[r.sid := Entry(r, "k", None, 0, 0, 0, 10)])
  {
    assert [] + [r.sid] == [r.sid];
  }

  lemma EnforceOneEntry(r: Runtime, e: Entry)
    requires e == Entry(r, "k", None, 0, 0, 0, 10)
    ensures Dict([r.sid], map[r.sid := e]).Values() == [e]
    ensures Overdue([e], 10, 9) == [e] && Ends([e], 10, 9) == [End(e, true, 10, 9)]
  {
    assert [e][..0] == [];
  }

  function StaleRun(r: Runtime): seq<Event> {
    [WatchBegin(0, r, "k", None), Tick(10), WatchBegin(1, r, "k", None), WatchLocked(1), WatchLocked(0),
     EnforceBegin(0), EnforceLocked(0)]
  }

  lemma StaleRunStart(r: Runtime)
    requires r.hasStream
    ensures Run(9, 0, StaleRun(r)[..3])
         == System(9, 10, EmptyDict(), {}, 0,
                   map[0 := Watching(r, "k", None, 0), 1 := Watching(r, "k", None, 10)], [], {}, [])
  {
    var e := StaleRun(r);
    RunNext(9, 0, e, 0);
    RunNext(9, 0, e, 1);
    RunNext(9, 0, e, 2);
  }

  lemma FirstLocked(s: System, r: Runtime, table: Table)
    requires table == Dict([r.sid], map[r.sid := Entry(r, "k", None, 10, 10, 0, 10)])
    requires s == System(9, 10, EmptyDict(), {}, 0,
                   map[0 := Watching(r, "k", None, 0), 1 := Watching(r, "k", None, 10)], [], {}, [])
    ensures Step(s, WatchLocked(1))
         == System(9, 10, table, {0}, 1, map[0 := Watching(r, "k", None, 0), 1 := Idle], [], {}, [])
  {
    StaleWatchSetsBack(r, table);
    assert WatchStep(s, At(s, 1)) == s.(table := table, attached := {0}, next := 1);
    assert s.threads[1 := Idle] == map[0 := Watching(r, "k", None, 0), 1 := Idle];
  }

  lemma StaleRunLocked(r: Runtime)
    requires r.hasStream
    ensures Run(9, 0, StaleRun(r)[..4])
         == System(9, 10, Dict([r.sid], map[r.sid := Entry(r, "k", None, 10, 10, 0, 10)]), {0}, 1,
                   map[0 := Watching(r, "k", None, 0), 1 := Idle], [], {}, [])
  {
    StaleRunStart(r);
    FirstLocked(Run(9, 0, StaleRun(r)[..3]), r, Dict([r.sid], map[r.sid := Entry(r, "k", None, 10, 10, 0, 10)]));
    RunNext(9, 0, StaleRun(r), 3);
  }

  lemma SecondLocked(s: System, r: Runtime, table: Table, after: Table)
    requires table == Dict([r.sid], map[r.sid := Entry(r, "k", None, 10, 10, 0, 10)])
    requires after == Dict([r.sid], map[r.sid := Entry(r, "k", None, 0, 0, 0, 10)])
    requires s == System(9, 10, table, {0}, 1, map[0 := Watching(r, "k", None, 0), 1 := Idle], [], {}, [])
    ensures s.table.Valid()
    ensures Step(s, WatchLocked(0)) == System(9, 10, after, {0}, 1, map[0 := Idle, 1 := Idle], [], {}, [])
  {
    StaleWatchSetsBack(r, table);
    assert WatchStep(s, At(s, 0)) == s.(table := after);
    assert s.threads[0 := Idle] == map[0 := Idle, 1 := Idle];
  }

  lemma StaleRunMiddle(r: Runtime)
    requires r.hasStream
    ensures Run(9, 0, StaleRun(r)[..5])
         == System(9, 10, Dict([r.sid], map[r.sid := Entry(r, "k", None, 0, 0, 0, 10)]), {0}, 1,
                   map[0 := Idle, 1 := Idle], [], {}, [])
  {
    StaleRunLocked(r);
    RunNext(9, 0, StaleRun(r), 4);
    SecondLocked(Run(9, 0, StaleRun(r)[..4]), r, Dict([r.sid], map[r.sid := Entry(r, "k", None, 10, 10, 0, 10)]),
                 Dict([r.sid], map[r.sid := Entry(r, "k", None, 0, 0, 0, 10)]));
  }

  /** The first thread enforces at once, and times the runtime out. */
  lemma EnforceTimesOut(s: System, r: Runtime)
    requires s == System(9, 10, Dict([r.sid], map[r.sid := Entry(r, "k", None, 0, 0, 0, 10)]), {0}, 1,
                   map[0 := Enforcing(10), 1 := Idle], [], {}, [])
    ensures s.table.Valid() && Step(s, EnforceLocked(0)).ended == [End(Entry(r, "k", None, 0, 0, 0, 10), true, 10, 9)]
  {
    EnforceOneEntry(r, Entry(r, "k", None, 0, 0, 0, 10));
    assert s.table.Valid();
    EnforceStep(s, 0);
  }

  lemma Begins(s: System, table: Table)
    requires s == System(9, 10, table, {0}, 1, map[0 := Idle, 1 := Idle], [], {}, []) && table.Valid()
    ensures Step(s, EnforceBegin(0)) == System(9, 10, table, {0}, 1, map[0 := Enforcing(10), 1 := Idle], [], {}, [])
  {
    assert s.threads[0 := Enforcing(10)] == map[0 := Enforcing(10), 1 := Idle];
  }

  lemma EnforceBegun(r: Runtime)
    requires r.hasStream
    ensures Run(9, 0, StaleRun(r)[..6])
         == System(9, 10, Dict([r.sid], map[r.sid := Entry(r, "k", None, 0, 0, 0, 10)]), {0}, 1,
                   map[0 := Enforcing(10), 1 := Idle], [], {}, [])
  {
    StaleRunMiddle(r);
    RunNext(9, 0, StaleRun(r), 5);
    Begins(Run(9, 0, StaleRun(r)[..5]), Dict([r.sid], map[r.sid := Entry(r, "k", None, 0, 0, 0, 10)]));
  }

  /** With a stale watch it need not: the clock is read before the lock is taken, so a thread that
      waited for the lock sets the last activity back, and here the runtime times out at the very
      moment of its last sign of life. */
  lemma StaleWatchTimesOutEarly(r: Runtime)
    requires r.hasStream
    ensures var s := Run(9, 0, StaleRun(r));
      |s.ended| == 1 && s.ended[0].timeout && s.ended[0].at == s.ended[0].entry.heard && s.ended[0].limit == 9
  {
    var e := StaleRun(r);
    EnforceBegun(r);
    EnforceTimesOut(Run(9, 0, e[..6]), r);
    RunNext(9, 0, e, 6);
    assert e[..7] == e;
  }
}
