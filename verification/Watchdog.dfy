/** The runtime watchdog: the table of watched runtimes, what each lock-protected section does to it,
    and the methods that do it in place. */
module Watchdog {
  import opened PyText
  import opened PyCollections

  /** A runtime, and whether it has an event stream to listen to. */
  datatype Runtime = Runtime(sid: string, tag: int, hasStream: bool)

  /** The fields of a watched runtime. `heard` is history: the time of the last sign of life. */
  datatype Entry = Entry(runtime: Runtime, key: string, sessionId: Option<string>,
                         acquiredAt: int, lastActivity: int, listener: nat, heard: int)

  type Table = Dict<string, Entry>

  function Max(a: int, b: int): int { if a < b then b else a }

  // ----- the locked sections, on values ------------------------------------------------

  /** A runtime that is watched already keeps its listener and starts afresh; a new one gets `listener`. */
  function Watched(t: Table, r: Runtime, key: string, session: Option<string>, now: int, listener: nat): Table {
    if r.sid in t.data then
      var e := t.data[r.sid];
      t.Set(r.sid, Entry(r, key, session, now, now, e.listener, Max(e.heard, now)))
    else t.Set(r.sid, Entry(r, key, session, now, now, listener, now))
  }

  function Beaten(t: Table, sid: string, now: int): Table {
    if sid in t.data then t.Set(sid, t.data[sid].(lastActivity := now, heard := Max(t.data[sid].heard, now))) else t
  }

  function Popped(t: Table, sid: string): Table { Dict(Without(t.order, sid), t.data - {sid}) }

  /** Watching does nothing when the watchdog is off or there is nothing to listen to. */
  predicate Ignored(r: Runtime, limit: int) { limit <= 0 || !r.hasStream }

  predicate IsOverdue(e: Entry, now: int, limit: int) { now - e.lastActivity > limit }

  /** The overdue ones of some entries, in order. */
  function Overdue(entries: seq<Entry>, now: int, limit: int): seq<Entry> {
    if entries == [] then []
    else
      var before, e := Overdue(entries[..|entries| - 1], now, limit), entries[|entries| - 1];
      if IsOverdue(e, now, limit) then before + [e] else before
  }

  /** The table without the overdue ones of some entries. */
  function Enforced(t: Table, entries: seq<Entry>, now: int, limit: int): Table {
    if entries == [] then t
    else
      var before, e := Enforced(t, entries[..|entries| - 1], now, limit), entries[|entries| - 1];
      if IsOverdue(e, now, limit) then Popped(before, e.runtime.sid) else before
  }

  lemma OneMoreEntry(t: Table, entries: seq<Entry>, i: nat, now: int, limit: int)
    requires i < |entries|
    ensures Overdue(entries[..i + 1], now, limit)
         == if IsOverdue(entries[i], now, limit) then Overdue(entries[..i], now, limit) + [entries[i]]
            else Overdue(entries[..i], now, limit)
    ensures Enforced(t, entries[..i + 1], now, limit)
         == if IsOverdue(entries[i], now, limit) then
              Popped(Enforced(t, entries[..i], now, limit), entries[i].runtime.sid)
            else Enforced(t, entries[..i], now, limit)
  {
    assert entries[..i + 1][..i] == entries[..i];
  }

  // ----- in place ----------------------------------------------------------------------

  /** The activity listeners of the event streams. */
  class ActivityListeners {
    var attached: set<nat>
    var next: nat

    method Add() returns (handle: nat)
      modifies this
      ensures handle == old(next) && next == old(next) + 1 && attached == old(attached) + {handle}
    {
      handle := next;
      next := next + 1;
      attached := attached + {handle};
    }

    method Remove(handle: nat)
      modifies this
      ensures next == old(next) && attached == old(attached) - {handle}
    {
      attached := attached - {handle};
    }
  }

  class WatchedRuntime {
    var runtime: Runtime
    var key: string
    var sessionId: Option<string>
    var acquiredAt: int
    var lastActivity: int
    const listener: nat
    ghost var heard: int

    constructor (runtime: Runtime, key: string, sessionId: Option<string>, now: int, listener: nat)
      ensures Value() == Entry(runtime, key, sessionId, now, now, listener, now)
    {
      this.runtime, this.key, this.sessionId := runtime, key, sessionId;
      acquiredAt, lastActivity, this.listener, heard := now, now, listener, now;
    }

    ghost function Value(): Entry reads this {
      Entry(runtime, key, sessionId, acquiredAt, lastActivity, listener, heard)
    }

    /** The entry starts afresh; its listener stays. */
    method Restart(runtime: Runtime, key: string, sessionId: Option<string>, now: int)
      modifies this
      ensures Value() == Entry(runtime, key, sessionId, now, now, listener, Max(old(heard), now))
    {
      this.key := key;
      this.sessionId := sessionId;
      this.runtime := runtime;
      acquiredAt := now;
      lastActivity := now;
      heard := Max(heard, now);
    }
  }

  class RuntimeWatchdog {
    var maxActiveSeconds: int
    var watched: Dict<string, WatchedRuntime>
    const listeners: ActivityListeners
    /** The table as a value; `Valid` ties it to the entries. */
    ghost var table: Table

    ghost function Entries(): set<WatchedRuntime> reads this {
      set k | k in watched.data :: watched.data[k]
    }

    ghost predicate Valid() reads this, Entries() {
      && watched.Valid() && table.order == watched.order && table.data.Keys == watched.data.Keys
      && (forall k :: k in watched.data ==> table.data[k] == watched.data[k].Value() && table.data[k].runtime.sid == k)
      && forall j, k :: j in watched.data && k in watched.data && watched.data[j] == watched.data[k] ==> j == k
    }

    constructor (maxActiveSeconds: int, listeners: ActivityListeners)
      ensures Valid() && table == EmptyDict() && this.listeners == listeners
      ensures this.maxActiveSeconds == maxActiveSeconds
    {
      this.maxActiveSeconds, this.listeners, watched, table := maxActiveSeconds, listeners, EmptyDict(), EmptyDict();
    }

    /** Watching a runtime that is watched already: its entry starts afresh and keeps its listener. */
    method Refresh(runtime: Runtime, key: string, sessionId: Option<string>, now: int)
      requires Valid() && runtime.sid in watched.data
      modifies this`table, Entries()
      ensures Valid()
      ensures table == Watched(old(table), runtime, key, sessionId, now, 0)
    {
      var existing := watched.data[runtime.sid];
      existing.Restart(runtime, key, sessionId, now);
      table := Watched(table, runtime, key, sessionId, now, 0);
    }

    /** `self._watched[sid] = entry` for a sid that is not there. */
    method Store(sid: string, entry: WatchedRuntime)
      requires Valid() && sid !in watched.data && entry !in Entries() && entry.runtime.sid == sid
      modifies this`watched, this`table
      ensures Valid() && Entries() <= old(Entries()) + {entry}
      ensures table == old(table).Set(sid, entry.Value())
    {
      watched := watched.Set(sid, entry);
      table := table.Set(sid, entry.Value());
    }

    /** Watching a runtime for the first time: a listener is attached and an entry made. */
    method AddEntry(runtime: Runtime, key: string, sessionId: Option<string>, now: int)
      requires Valid() && runtime.sid !in watched.data
      modifies this`watched, this`table, listeners
      ensures Valid() && fresh(Entries() - old(Entries()))
      ensures table == Watched(old(table), runtime, key, sessionId, now, old(listeners.next))
      ensures listeners.attached == old(listeners.attached) + {old(listeners.next)}
    {
      var handle := listeners.Add();
      var entry := new WatchedRuntime(runtime, key, sessionId, now, handle);
      Store(runtime.sid, entry);
    }

    method WatchRuntime(runtime: Runtime, key: string, sessionId: Option<string>, now: int)
      requires Valid()
      modifies this`watched, this`table, Entries(), listeners
      ensures Valid() && fresh(Entries() - old(Entries()))
      ensures table == if maxActiveSeconds <= 0 || !runtime.hasStream then old(table)
                       else Watched(old(table), runtime, key, sessionId, now, old(listeners.next))
      ensures listeners.attached == old(listeners.attached)
        + (if maxActiveSeconds > 0 && runtime.hasStream && runtime.sid !in old(table.data) then {old(listeners.next)}
           else {})
    {
      if maxActiveSeconds <= 0 { return; }
      if !runtime.hasStream { return; }
      if runtime.sid in watched.data {
        Refresh(runtime, key, sessionId, now);
      } else {
        AddEntry(runtime, key, sessionId, now);
      }
    }

    method Heartbeat(sid: string, now: int)
      requires Valid()
      modifies this`table, Entries()
      ensures Valid()
      ensures table == if maxActiveSeconds <= 0 then old(table) else Beaten(old(table), sid, now)
    {
      if maxActiveSeconds <= 0 { return; }
      if sid in watched.data {
        var meta := watched.data[sid];
        meta.lastActivity := now;
        meta.heard := Max(meta.heard, now);
        table := Beaten(table, sid, now);
      }
    }

    /** `self._watched.pop(sid, None)`. */
    method Pop(sid: string) returns (meta: Option<WatchedRuntime>)
      requires Valid()
      modifies this`watched, this`table
      ensures Valid() && table == Popped(old(table), sid) && Entries() <= old(Entries())
      ensures if sid in old(watched.data) then meta == Some(old(watched.data[sid])) else meta == None
    {
      meta := if sid in watched.data then Some(watched.data[sid]) else None;
      watched := Dict(Without(watched.order, sid), watched.data - {sid});
      table := Popped(table, sid);
    }

    method UnwatchRuntime(runtime: Runtime)
      requires Valid()
      modifies this`watched, this`table, listeners
      ensures Valid() && table == Popped(old(table), runtime.sid)
      ensures listeners.attached == old(listeners.attached)
        - (if runtime.sid in old(table.data) then {old(table.data[runtime.sid].listener)} else {})
    {
      var meta := Pop(runtime.sid);
      if meta.Some? {
        listeners.Remove(meta.value.listener);
      }
    }

    /** `list(self._watched.values())`. */
    method ListEntries() returns (metas: seq<WatchedRuntime>)
      requires Valid()
      ensures table.Valid() && Shows(metas, table.Values())
    {
      metas := watched.Values();
    }

    /** One turn of the enforcement loop, on the entry with value `e`. */
    method EnforceOne(meta: WatchedRuntime, now: int, overdue: seq<WatchedRuntime>, ghost e: Entry,
                      ghost found: seq<Entry>)
      returns (more: seq<WatchedRuntime>)
      requires Valid() && meta.Value() == e && Shows(overdue, found)
      modifies this`watched, this`table
      ensures Valid()
      ensures Shows(more, if IsOverdue(e, now, maxActiveSeconds) then found + [e] else found)
      ensures table == if IsOverdue(e, now, maxActiveSeconds) then Popped(old(table), e.runtime.sid) else old(table)
    {
      more := overdue;
      if now - meta.lastActivity > maxActiveSeconds {
        more := overdue + [meta];
        ShowsOneMore(overdue, found, meta, e);
        var popped := Pop(meta.runtime.sid);
        assert Shows(more, found + [e]);
      }
    }

    /** The loop of enforcement, over the objects with the values `entries`. */
    method PopOverdueOf(metas: seq<WatchedRuntime>, now: int, ghost entries: seq<Entry>)
      returns (overdue: seq<WatchedRuntime>)
      requires Valid() && Shows(metas, entries)
      modifies this`watched, this`table
      ensures Valid() && table == Enforced(old(table), entries, now, maxActiveSeconds)
      ensures Shows(overdue, Overdue(entries, now, maxActiveSeconds))
    {
      overdue := [];
      ghost var start := table;
      for i := 0 to |metas|
        invariant Valid() && Shows(metas, entries)
        invariant table == Enforced(start, entries[..i], now, maxActiveSeconds)
        invariant Shows(overdue, Overdue(entries[..i], now, maxActiveSeconds))
      {
        OneMoreEntry(start, entries, i, now, maxActiveSeconds);
        overdue := EnforceOne(metas[i], now, overdue, entries[i], Overdue(entries[..i], now, maxActiveSeconds));
      }
      assert entries[..|metas|] == entries;
    }

    /** The locked part of enforcement: overdue entries leave the table and are returned in table order. */
    method PopOverdue(now: int) returns (overdue: seq<WatchedRuntime>)
      requires Valid()
      modifies this`watched, this`table
      ensures Valid() && old(table).Valid()
      ensures table == Enforced(old(table), old(table).Values(), now, maxActiveSeconds)
      ensures Shows(overdue, Overdue(old(table).Values(), now, maxActiveSeconds))
    {
      var metas := ListEntries();
      overdue := PopOverdueOf(metas, now, table.Values());
    }

    /** One turn of the watchdog thread: pops what is overdue, detaches it, and returns what it
        disconnected, in order. */
    method EnforceDeadlines(now: int) returns (terminated: seq<WatchedRuntime>)
      requires Valid()
      modifies this`watched, this`table, listeners
      ensures Valid() && old(table).Valid()
      ensures maxActiveSeconds <= 0 ==>
        terminated == [] && table == old(table) && listeners.attached == old(listeners.attached)
      ensures maxActiveSeconds > 0 ==>
        var entries := old(table).Values();
        var overdue := Overdue(entries, now, maxActiveSeconds);
        && table == Enforced(old(table), entries, now, maxActiveSeconds)
        && Shows(terminated, overdue)
        && listeners.attached == old(listeners.attached) - Listeners(overdue)
    {
      terminated := [];
      if maxActiveSeconds <= 0 { return; }
      terminated := PopOverdue(now);
      DetachAll(terminated);
    }

    method DetachAll(metas: seq<WatchedRuntime>)
      modifies listeners
      ensures listeners.attached == old(listeners.attached) - (set i | 0 <= i < |metas| :: metas[i].listener)
    {
      for i := 0 to |metas|
        invariant listeners.attached == old(listeners.attached) - (set j | 0 <= j < i :: metas[j].listener)
      {
        listeners.Remove(metas[i].listener);
      }
    }
  }

  function Listeners(entries: seq<Entry>): set<nat> { set i | 0 <= i < |entries| :: entries[i].listener }

  /** The objects have these values. */
  ghost predicate Shows(objects: seq<WatchedRuntime>, entries: seq<Entry>)
    reads objects
  {
    |objects| == |entries| && forall i :: 0 <= i < |objects| ==> objects[i].Value() == entries[i]
  }

  lemma ShowsOneMore(objects: seq<WatchedRuntime>, entries: seq<Entry>, o: WatchedRuntime, e: Entry)
    requires Shows(objects, entries) && o.Value() == e
    ensures Shows(objects + [o], entries + [e])
  {
  }
}
