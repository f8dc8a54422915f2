/** The write-ahead checkpoint of streaming calls: a temporary file, an atomic replace, an unlink and
    an evidence file, with an I/O failure or a crash possible at every file-system call. */
module Checkpoint {
  import opened PyText

  datatype Record = Record(token: string, createdAt: int, attempt: int, anchorEventId: Option<int>, crashMarker: string)

  /** What a file holds: a whole record, or something that does not parse. */
  datatype Content = Complete(record: Record) | Torn

  datatype Disk = Disk(wal: Option<Content>, tmp: Option<Content>, evidence: map<string, Content>)

  /** How a file-system call goes: it works, it raises OSError (PermissionError in particular), or the
      process dies before the call has taken effect. A write that does not work leaves a torn file. */
  datatype Io = Works | Fails | Denied | Dies

  /** The fate of each file-system call of one operation, by the call's number. */
  type Fate = nat -> Io

  // The calls of `_write`; replacing is tried up to five times, as calls 2 to 6.
  const OPEN_TMP: nat := 0
  const WRITE_TMP: nat := 1
  const REPLACE: nat := 2
  const ATTEMPTS: nat := 5
  const SYNC_DIR: nat := 7
  const CLEAN_UP: nat := 8

  // The calls of an inspection and of removing the file.
  const READ: nat := 0
  const READ_AGAIN: nat := 1
  const UNLINK: nat := 2
  const SYNC_REMOVAL: nat := 3
  const OPEN_EVIDENCE: nat := 4
  const WRITE_EVIDENCE: nat := 5
  const SYNC_EVIDENCE: nat := 6

  datatype Status = Returned | Raised | Crashed

  datatype Inspection =
    | Clean | BlockedUncommitted(record: Record) | BlockedStale(record: Record)
    | StaleDiscarded(record: Record) | CorruptDiscarded | Died

  // ----- the operations on values ------------------------------------------------------

  /** Removing the temporary file after a failure, and passing the failure on. */
  function CleanUp(d: Disk, io: Fate): (Disk, Status) {
    match io(CLEAN_UP)
    case Works => (d.(tmp := None), Raised)
    case Dies => (d, Crashed)
    case _ => (d, Raised)
  }

  function ReplaceFrom(d: Disk, io: Fate, attempt: nat): (Disk, Status)
    requires attempt < ATTEMPTS
    decreases ATTEMPTS - attempt
  {
    match io(REPLACE + attempt)
    case Works => (d.(wal := d.tmp, tmp := None), if io(SYNC_DIR) == Dies then Crashed else Returned)
    case Denied => if attempt == ATTEMPTS - 1 then CleanUp(d, io) else ReplaceFrom(d, io, attempt + 1)
    case Fails => CleanUp(d, io)
    case Dies => (d, Crashed)
  }

  function Write(d: Disk, r: Record, io: Fate): (Disk, Status) {
    if io(OPEN_TMP) == Dies then (d, Crashed)
    else if io(OPEN_TMP) != Works then CleanUp(d, io)
    else
      var emptied := d.(tmp := Some(Torn));
      if io(WRITE_TMP) == Dies then (emptied, Crashed)
      else if io(WRITE_TMP) != Works then CleanUp(emptied, io)
      else ReplaceFrom(emptied.(tmp := Some(Complete(r))), io, 0)
  }

  datatype Settings = Settings(maxAge: int, discardStale: bool)

  /** Without automatic discard no evidence is written. */
  function PreserveEvidence(c: Settings, d: Disk, r: Record, io: Fate): (Disk, Status) {
    if !c.discardStale then (d, Returned)
    else if io(OPEN_EVIDENCE) == Dies then (d, Crashed)
    else if io(OPEN_EVIDENCE) != Works then (d, Returned)
    else
      var emptied := d.(evidence := d.evidence[r.crashMarker := Torn]);
      if io(WRITE_EVIDENCE) == Dies then (emptied, Crashed)
      else if io(WRITE_EVIDENCE) != Works then (emptied, Returned)
      else (emptied.(evidence := d.evidence[r.crashMarker := Complete(r)]),
            if io(SYNC_EVIDENCE) == Dies then Crashed else Returned)
  }

  /** Unlinking the file; a failure is swallowed. */
  function Unlink(d: Disk, io: Fate): (Disk, Status) {
    if io(UNLINK) == Dies then (d, Crashed)
    else if io(UNLINK) != Works then (d, Returned)
    else (d.(wal := None), if io(SYNC_REMOVAL) == Dies then Crashed else Returned)
  }

  function RemoveWal(c: Settings, d: Disk, preserve: bool, io: Fate): (Disk, Status) {
    if preserve && d.wal.Some? && io(READ_AGAIN) == Dies then (d, Crashed)
    else
      var again := preserve && d.wal.Some? && d.wal.value.Complete? && io(READ_AGAIN) == Works;
      var (gone, status) := Unlink(d, io);
      if status == Crashed || !again then (gone, status) else PreserveEvidence(c, gone, d.wal.value.record, io)
  }

  function Inspect(c: Settings, d: Disk, now: int, io: Fate): (Disk, Inspection) {
    if d.wal == None then (d, Clean)
    else if io(READ) == Dies then (d, Died)
    else if io(READ) != Works || d.wal.value.Torn? then
      var (after, status) := RemoveWal(c, d, false, io);
      (after, if status == Crashed then Died else CorruptDiscarded)
    else
      var r := d.wal.value.record;
      if now - r.createdAt > c.maxAge then
        if c.discardStale then
          var (after, status) := RemoveWal(c, d, true, io);
          (after, if status == Crashed then Died else StaleDiscarded(r))
        else (d, BlockedStale(r))
      else (d, BlockedUncommitted(r))
  }

  // ----- the class ---------------------------------------------------------------------

  class StreamingCheckpoint {
    const settings: Settings
    var disk: Disk
    /** The active record; lost when the process dies. */
    var active: Option<Record>

    constructor (settings: Settings, disk: Disk)
      ensures this.settings == settings && this.disk == disk && active == None
    {
      this.settings, this.disk, active := settings, disk, None;
    }

    method FinishFailedWrite(io: Fate) returns (status: Status)
      modifies this`disk
      ensures (disk, status) == CleanUp(old(disk), io)
    {
      var fate := io(CLEAN_UP);
      if fate == Works { disk := disk.(tmp := None); }
      status := if fate == Dies then Crashed else Raised;
    }

    method WriteRecord(record: Record, io: Fate) returns (status: Status)
      modifies this`disk
      ensures (disk, status) == Write(old(disk), record, io)
    {
      if io(OPEN_TMP) == Dies { return Crashed; }
      if io(OPEN_TMP) != Works { status := FinishFailedWrite(io); return; }
      disk := disk.(tmp := Some(Torn));
      if io(WRITE_TMP) == Dies { return Crashed; }
      if io(WRITE_TMP) != Works { status := FinishFailedWrite(io); return; }
      disk := disk.(tmp := Some(Complete(record)));
      ghost var written := disk;
      var attempt := 0;
      while attempt < ATTEMPTS
        invariant attempt <= ATTEMPTS && disk == written
        invariant attempt < ATTEMPTS ==> ReplaceFrom(written, io, attempt) == Write(old(disk), record, io)
        invariant attempt == ATTEMPTS ==> CleanUp(written, io) == Write(old(disk), record, io)
      {
        var fate := io(REPLACE + attempt);
        if fate == Works {
          disk := disk.(wal := disk.tmp, tmp := None);
          return if io(SYNC_DIR) == Dies then Crashed else Returned;
        }
        if fate == Dies { return Crashed; }
        if fate == Fails { status := FinishFailedWrite(io); return; }
        attempt := attempt + 1;
      }
      status := FinishFailedWrite(io);
    }

    method Begin(record: Record, io: Fate) returns (status: Status, token: string)
      modifies this
      ensures (disk, status) == Write(old(disk), record, io)
      ensures active == match status case Returned => Some(record) case Raised => old(active) case Crashed => None
      ensures status == Returned ==> token == record.token
    {
      token := "";
      status := WriteRecord(record, io);
      if status == Returned {
        active, token := Some(record), record.token;
      } else if status == Crashed {
        active := None;
      }
    }

    method Remove(preserve: bool, io: Fate) returns (status: Status)
      modifies this`disk
      ensures (disk, status) == RemoveWal(settings, old(disk), preserve, io)
    {
      var record := None;
      if preserve && disk.wal.Some? {
        if io(READ_AGAIN) == Dies { return Crashed; }
        if io(READ_AGAIN) == Works && disk.wal.value.Complete? { record := Some(disk.wal.value.record); }
      }
      if io(UNLINK) == Dies { return Crashed; }
      if io(UNLINK) == Works {
        disk := disk.(wal := None);
        if io(SYNC_REMOVAL) == Dies { return Crashed; }
      }
      status := Returned;
      if record.Some? {
        status := Preserve(record.value, io);
      }
    }

    method Preserve(record: Record, io: Fate) returns (status: Status)
      modifies this`disk
      ensures (disk, status) == PreserveEvidence(settings, old(disk), record, io)
    {
      if !settings.discardStale { return Returned; }
      if io(OPEN_EVIDENCE) == Dies { return Crashed; }
      if io(OPEN_EVIDENCE) != Works { return Returned; }
      disk := disk.(evidence := disk.evidence[record.crashMarker := Torn]);
      if io(WRITE_EVIDENCE) == Dies { return Crashed; }
      if io(WRITE_EVIDENCE) != Works { return Returned; }
      disk := disk.(evidence := disk.evidence[record.crashMarker := Complete(record)]);
      assert disk.evidence == old(disk).evidence[record.crashMarker := Complete(record)];
      status := if io(SYNC_EVIDENCE) == Dies then Crashed else Returned;
    }

    /** Commits whatever record there is: a token that does not match is only warned about. */
    method Commit(token: string, io: Fate) returns (status: Status)
      modifies this
      ensures (disk, status) == RemoveWal(settings, old(disk), false, io) && active == None
    {
      status := Remove(false, io);
      active := None;
    }

    method Discard(io: Fate) returns (status: Status)
      modifies this
      ensures (disk, status) == RemoveWal(settings, old(disk), false, io) && active == None
    {
      status := Remove(false, io);
      active := None;
    }

    method InspectRecovery(now: int, io: Fate) returns (found: Inspection)
      modifies this
      ensures (disk, found) == Inspect(settings, old(disk), now, io)
      ensures active == if found == Died then None else old(active)
    {
      if disk.wal == None { return Clean; }
      if io(READ) == Dies { active := None; return Died; }
      if io(READ) != Works || disk.wal.value.Torn? {
        var status := Remove(false, io);
        if status == Crashed { active := None; return Died; }
        return CorruptDiscarded;
      }
      var record := disk.wal.value.record;
      if now - record.createdAt > settings.maxAge {
        if settings.discardStale {
          var status := Remove(true, io);
          if status == Crashed { active := None; return Died; }
          return StaleDiscarded(record);
        }
        return BlockedStale(record);
      }
      return BlockedUncommitted(record);
    }

    method Recover(now: int, io: Fate) returns (record: Option<Record>)
      modifies this
      ensures var found := Inspect(settings, old(disk), now, io).1;
        record == if found.BlockedUncommitted? || found.BlockedStale? then Some(found.record) else None
      ensures disk == Inspect(settings, old(disk), now, io).0
    {
      var found := InspectRecovery(now, io);
      record := if found.BlockedUncommitted? || found.BlockedStale? then Some(found.record) else None;
    }
  }

  // ----- one call ----------------------------------------------------------------------

  /** Barring outside corruption the file is absent or one whole record. */
  predicate WalOk(d: Disk) { d.wal.Some? ==> d.wal.value.Complete? }

  /** The record that is written and not removed. */
  function Uncommitted(d: Disk): Option<Record> {
    if d.wal.Some? && d.wal.value.Complete? then Some(d.wal.value.record) else None
  }

  lemma {:induction false} ReplaceIsAtomic(d: Disk, io: Fate, attempt: nat)
    requires attempt < ATTEMPTS
    ensures var (after, status) := ReplaceFrom(d, io, attempt);
      && (after.wal == d.wal || after.wal == d.tmp) && after.evidence == d.evidence
      && (status == Returned ==> after.wal == d.tmp) && (status == Raised ==> after.wal == d.wal)
    decreases ATTEMPTS - attempt
  {
    if io(REPLACE + attempt) == Denied && attempt < ATTEMPTS - 1 { ReplaceIsAtomic(d, io, attempt + 1); }
  }

  /** Writing is all or nothing, wherever it stops: the file is the old one or the new record; a write
      that returns wrote it, and one that raises left the old file. */
  lemma WriteIsAtomic(d: Disk, r: Record, io: Fate)
    ensures var (after, status) := Write(d, r, io);
      && (after.wal == d.wal || after.wal == Some(Complete(r))) && after.evidence == d.evidence
      && (status == Returned ==> after.wal == Some(Complete(r)))
      && (status == Raised ==> after.wal == d.wal)
  {
    ReplaceIsAtomic(d.(tmp := Some(Complete(r))), io, 0);
  }

  /** Removing is all or nothing too, and takes the file away exactly when the unlink is reached and works. */
  lemma RemoveIsAtomic(c: Settings, d: Disk, preserve: bool, io: Fate)
    ensures var (after, status) := RemoveWal(c, d, preserve, io);
      && (after.wal == d.wal || after.wal == None)
      && (status != Crashed ==> after.wal == if io(UNLINK) == Works then None else d.wal)
      && status != Raised
  {
  }

  // ----- whole runs --------------------------------------------------------------------

  datatype Call =
    | DoBegin(record: Record, io: Fate) | DoCommit(token: string, io: Fate) | DoDiscard(io: Fate)
    | DoInspect(now: int, io: Fate)

  datatype Outcome = Ended(status: Status) | Found(inspection: Inspection)

  /** One call on the disk; the process may die in it, and another may go on with the disk as it is. */
  function Do(c: Settings, d: Disk, call: Call): (Disk, Outcome) {
    match call
    case DoBegin(r, io) => var (after, s) := Write(d, r, io); (after, Ended(s))
    case DoCommit(_, io) => var (after, s) := RemoveWal(c, d, false, io); (after, Ended(s))
    case DoDiscard(io) => var (after, s) := RemoveWal(c, d, false, io); (after, Ended(s))
    case DoInspect(now, io) => var (after, i) := Inspect(c, d, now, io); (after, Found(i))
  }

  /** The abstract register: what each call may do to the record that is uncommitted, given how it ended. */
  predicate Allowed(c: Settings, before: Option<Record>, call: Call, outcome: Outcome, after: Option<Record>) {
    match (call, outcome)
    case (DoBegin(r, _), Ended(Returned)) => after == Some(r)
    case (DoBegin(_, _), Ended(Raised)) => after == before
    case (DoBegin(r, _), Ended(Crashed)) => after == before || after == Some(r)
    case (DoCommit(_, io), Ended(Returned)) => after == if io(UNLINK) == Works then None else before
    case (DoDiscard(io), Ended(Returned)) => after == if io(UNLINK) == Works then None else before
    case (DoCommit(_, _), Ended(Crashed)) => after == before || after == None
    case (DoDiscard(_), Ended(Crashed)) => after == before || after == None
    case (DoInspect(_, _), Found(Clean)) => before == after == None
    case (DoInspect(now, _), Found(BlockedUncommitted(r))) =>
      before == after == Some(r) && now - r.createdAt <= c.maxAge
    case (DoInspect(now, _), Found(BlockedStale(r))) =>
      before == after == Some(r) && now - r.createdAt > c.maxAge && !c.discardStale
    case (DoInspect(now, io), Found(StaleDiscarded(r))) =>
      before == Some(r) && now - r.createdAt > c.maxAge && c.discardStale
      && after == if io(UNLINK) == Works then None else before
    case (DoInspect(_, io), Found(CorruptDiscarded)) =>
      before.Some? && io(READ) != Works && after == if io(UNLINK) == Works then None else before
    case (DoInspect(_, _), Found(Died)) => after == before || after == None
    case _ => false
  }

  /** Every call, with every fate of its file-system calls, acts on the file as the register allows. */
  lemma CallsRefineRegister(c: Settings, d: Disk, call: Call)
    requires WalOk(d)
    ensures var (after, outcome) := Do(c, d, call);
      WalOk(after) && Allowed(c, Uncommitted(d), call, outcome, Uncommitted(after))
  {
    match call
    case DoBegin(r, io) => WriteIsAtomic(d, r, io);
    case DoCommit(_, io) => RemoveIsAtomic(c, d, false, io);
    case DoDiscard(io) => RemoveIsAtomic(c, d, false, io);
    case DoInspect(now, io) =>
      RemoveIsAtomic(c, d, false, io);
      RemoveIsAtomic(c, d, true, io);
  }

  function Run(c: Settings, calls: seq<Call>): Disk {
    if calls == [] then Disk(None, None, map[])
    else Do(c, Run(c, calls[..|calls| - 1]), calls[|calls| - 1]).0
  }

  /** What writing and removing left, by the register alone: `pending` is the register after each call. */
  ghost predicate Registers(c: Settings, calls: seq<Call>, pending: seq<Option<Record>>) {
    && |pending| == |calls| + 1 && pending[0] == None
    && forall i :: 0 <= i < |calls| ==>
         Allowed(c, pending[i], calls[i], Do(c, Run(c, calls[..i]), calls[i]).1, pending[i + 1])
  }

  /** Crash safety: over every run, whatever fails and wherever processes die, the file is absent or
      one whole record, and its history is one of the register. */
  lemma {:induction false} RunsAreCrashSafe(c: Settings, calls: seq<Call>) returns (pending: seq<Option<Record>>)
    ensures WalOk(Run(c, calls))
    ensures Registers(c, calls, pending) && pending[|calls|] == Uncommitted(Run(c, calls))
  {
    if calls == [] {
      pending := [None];
    } else {
      var n := |calls| - 1;
      var before := RunsAreCrashSafe(c, calls[..n]);
      CallsRefineRegister(c, Run(c, calls[..n]), calls[n]);
      pending := before + [Uncommitted(Run(c, calls))];
      forall i | 0 <= i < |calls|
        ensures Allowed(c, pending[i], calls[i], Do(c, Run(c, calls[..i]), calls[i]).1, pending[i + 1])
      {
        if i < n { assert calls[..n][..i] == calls[..i] && calls[..n][i] == calls[i]; }
      }
    }
  }

  /** The file is opened and written, and one of the five tries to replace works, the earlier ones being denied. */
  ghost predicate Written(io: Fate) {
    && io(OPEN_TMP) == Works && io(WRITE_TMP) == Works
    && Reaches(io, REPLACE)
  }

  ghost predicate Reaches(io: Fate, first: nat) { exists k :: FirstToWork(io, first, k) }

  ghost predicate FirstToWork(io: Fate, first: nat, k: nat) {
    && first <= k < REPLACE + ATTEMPTS && io(k) == Works
    && forall j: nat :: first <= j < k ==> io(j) == Denied
  }

  lemma ReachesNext(io: Fate, first: nat)
    requires io(first) == Denied
    ensures Reaches(io, first) <==> Reaches(io, first + 1)
  {
    if Reaches(io, first) {
      var k :| FirstToWork(io, first, k);
      assert FirstToWork(io, first + 1, k);
    }
    if Reaches(io, first + 1) {
      var k :| FirstToWork(io, first + 1, k);
      assert FirstToWork(io, first, k);
    }
  }

  /** The tries to replace change the file exactly when one is reached that works; what dies later comes too late. */
  lemma {:induction false} ReplacedWhen(d: Disk, io: Fate, attempt: nat)
    requires attempt < ATTEMPTS
    ensures ReplaceFrom(d, io, attempt).0.wal == if Reaches(io, REPLACE + attempt) then d.tmp else d.wal
    decreases ATTEMPTS - attempt
  {
    var first := REPLACE + attempt;
    if io(first) == Works {
      assert FirstToWork(io, first, first);
    } else if io(first) == Denied && attempt < ATTEMPTS - 1 {
      ReplacedWhen(d, io, attempt + 1);
      ReachesNext(io, first);
    }
  }

  predicate IsStale(c: Settings, r: Record, now: int) { now - r.createdAt > c.maxAge }

  /** An inspection that finds `r` comes as far as unlinking it: it cannot read the record, or discards it as stale. */
  predicate ReachesUnlink(c: Settings, r: Record, now: int, io: Fate) {
    && io(READ) != Dies
    && (io(READ) != Works || (IsStale(c, r, now) && c.discardStale && io(READ_AGAIN) != Dies))
  }

  /** The last record written that no commit, discard or inspection has removed since, told from the
      calls and the fates of their file-system calls alone. */
  ghost function Pending(c: Settings, calls: seq<Call>): Option<Record> {
    if calls == [] then None
    else
      var before := Pending(c, calls[..|calls| - 1]);
      match calls[|calls| - 1]
      case DoBegin(r, io) => if Written(io) then Some(r) else before
      case DoInspect(now, io) =>
        if before.Some? && ReachesUnlink(c, before.value, now, io) && io(UNLINK) == Works then None else before
      case call => if call.io(UNLINK) == Works then None else before
  }

  /** Over every run, whatever fails and wherever processes die, the file holds just the last record
      written and not removed since. */
  lemma {:induction false} FileHoldsPending(c: Settings, calls: seq<Call>)
    ensures WalOk(Run(c, calls)) && Uncommitted(Run(c, calls)) == Pending(c, calls)
  {
    if calls != [] {
      var n := |calls| - 1;
      var d, last := Run(c, calls[..n]), calls[n];
      FileHoldsPending(c, calls[..n]);
      CallsRefineRegister(c, d, last);
      if last.DoBegin? {
        ReplacedWhen(d.(tmp := Some(Complete(last.record))), last.io, 0);
      }
    }
  }

  /** An inspection reports a blocked record exactly when one is uncommitted, it can read it, and it is
      not up for automatic discard; and it reports that record. */
  lemma BlockedIffUncommitted(c: Settings, d: Disk, now: int, io: Fate)
    requires WalOk(d)
    ensures var found, held := Inspect(c, d, now, io).1, Uncommitted(d);
      && ((found.BlockedUncommitted? || found.BlockedStale?) <==>
            held.Some? && io(READ) == Works && !(IsStale(c, held.value, now) && c.discardStale))
      && (found.BlockedUncommitted? || found.BlockedStale? ==> Some(found.record) == held)
  {
  }

  /** After every run, with crashes anywhere, an inspection reports a blocked record exactly when the last
      record written has not been removed, it can be read, and it is not up for automatic discard. */
  lemma InspectionReportsPending(c: Settings, calls: seq<Call>, now: int, io: Fate)
    ensures var found, last := Inspect(c, Run(c, calls), now, io).1, Pending(c, calls);
      && ((found.BlockedUncommitted? || found.BlockedStale?) <==>
            last.Some? && io(READ) == Works && !(IsStale(c, last.value, now) && c.discardStale))
      && (found.BlockedUncommitted? || found.BlockedStale? ==> Some(found.record) == last)
  {
    FileHoldsPending(c, calls);
    BlockedIffUncommitted(c, Run(c, calls), now, io);
  }

  /** An inspection that reports a record as blocked has changed nothing at all. */
  lemma BlockedInspectionChangesNothing(c: Settings, d: Disk, now: int, io: Fate)
    ensures var (after, found) := Inspect(c, d, now, io);
      found.BlockedUncommitted? || found.BlockedStale? || found.Clean? ==> after == d
  {
  }

  /** Inspecting a recent record, or a stale one that is not discarded automatically, changes nothing if
      and only if the record can be read, or the process dies reading it, or the unlink does not work. */
  lemma InspectionChangesNothingIff(c: Settings, d: Disk, r: Record, now: int, io: Fate)
    requires d.wal == Some(Complete(r)) && !(IsStale(c, r, now) && c.discardStale)
    ensures Inspect(c, d, now, io).0 == d <==> io(READ) == Works || io(READ) == Dies || io(UNLINK) != Works
  {
  }

  /** Inspecting any whole record leaves the file in place if and only if it does not come to unlinking
      it, or the unlink does not work. */
  lemma InspectionKeepsFileIff(c: Settings, d: Disk, r: Record, now: int, io: Fate)
    requires d.wal == Some(Complete(r))
    ensures Inspect(c, d, now, io).0.wal == d.wal <==> !ReachesUnlink(c, r, now, io) || io(UNLINK) != Works
  {
  }

  /** A commit that returns need not have removed the record: a failing unlink is swallowed, and the
      finished call goes on to block the next one. */
  lemma CommitMayKeepRecord(c: Settings, r: Record, token: string)
    requires c.maxAge > 0
    ensures var d := Disk(Some(Complete(r)), None, map[]);
      && Do(c, d, DoCommit(token, (n: nat) => if n == UNLINK then Fails else Works)) == (d, Ended(Returned))
      && Inspect(c, d, r.createdAt, (n: nat) => Works).1 == BlockedUncommitted(r)
  {
  }

  /** One of the fates left: a transient read error is taken for corruption, and a whole, recent record is
      deleted without evidence. */
  lemma ReadErrorDeletesRecord(c: Settings, r: Record, now: int)
    ensures var d := Disk(Some(Complete(r)), None, map[]);
      Inspect(c, d, now, (n: nat) => if n == READ then Fails else Works) == (Disk(None, None, map[]), CorruptDiscarded)
  {
  }

  // ----- evidence ----------------------------------------------------------------------

  /** The record is nowhere any more: the file is gone and the evidence does not hold it. */
  predicate Lost(d: Disk, r: Record) {
    d.wal == None && !(r.crashMarker in d.evidence && d.evidence[r.crashMarker] == Complete(r))
  }

  /** A stale record that is discarded is lost exactly when its file is unlinked and, because of a
      failure or a crash, the evidence is not written after that; so without either it is preserved. */
  lemma StaleRecordLostExactlyWhen(c: Settings, d: Disk, r: Record, now: int, io: Fate)
    requires d.wal == Some(Complete(r)) && now - r.createdAt > c.maxAge && c.discardStale && io(READ) == Works
    requires r.crashMarker in d.evidence ==> d.evidence[r.crashMarker] != Complete(r)
    ensures Lost(Inspect(c, d, now, io).0, r) <==>
      && io(READ_AGAIN) != Dies && io(UNLINK) == Works
      && !(io(READ_AGAIN) == Works && io(SYNC_REMOVAL) != Dies && io(OPEN_EVIDENCE) == Works
           && io(WRITE_EVIDENCE) == Works)
  {
  }

  // ----- how each call ends ------------------------------------------------------------

  predicate Undone(f: Io) { f == Fails || f == Denied }

  /** The k-th call is a try to replace, those before it were denied, and it goes as `f` says. */
  ghost predicate TryGoes(io: Fate, k: nat, f: Io) {
    && REPLACE <= k < REPLACE + 5 && io(k) == f && forall j: nat :: REPLACE <= j < k ==> io(j) == Denied
  }

  ghost predicate SomeTryGoes(io: Fate, f: Io) { exists k :: TryGoes(io, k, f) }

  predicate TempWritten(io: Fate) { io(OPEN_TMP) == Works && io(WRITE_TMP) == Works }

  /** The write fails and the temporary file is to be removed. */
  ghost predicate WriteFails(io: Fate) {
    || Undone(io(OPEN_TMP))
    || (io(OPEN_TMP) == Works && Undone(io(WRITE_TMP)))
    || (TempWritten(io) && (SomeTryGoes(io, Fails) || TryGoes(io, REPLACE + 4, Denied)))
  }

  /** From a try on, those before it denied: how replacing ends is told by the first try that is not denied. */
  lemma {:induction false} ReplaceEnds(d: Disk, io: Fate, attempt: nat)
    requires attempt < ATTEMPTS && forall j: nat :: REPLACE <= j < REPLACE + attempt ==> io(j) == Denied
    ensures var status := ReplaceFrom(d, io, attempt).1;
      && (status == Returned <==> SomeTryGoes(io, Works) && io(SYNC_DIR) != Dies)
      && (status == Raised <==>
            (SomeTryGoes(io, Fails) || TryGoes(io, REPLACE + 4, Denied)) && io(CLEAN_UP) != Dies)
    decreases ATTEMPTS - attempt
  {
    var k := REPLACE + attempt;
    if io(k) == Denied && attempt < ATTEMPTS - 1 {
      ReplaceEnds(d, io, attempt + 1);
    } else {
      assert TryGoes(io, k, io(k));
      forall f, m | TryGoes(io, m, f) ensures (m == k && f == io(k)) || f == Denied {}
    }
  }

  /** A write returns exactly when the temporary file is written, some try to replace works with all before it
      denied, and the process does not die after that. It raises exactly when it fails and survives the
      removal of the temporary file. Otherwise the process has died. */
  lemma WriteEnds(d: Disk, r: Record, io: Fate)
    ensures var status := Write(d, r, io).1;
      && (status == Returned <==> TempWritten(io) && SomeTryGoes(io, Works) && io(SYNC_DIR) != Dies)
      && (status == Raised <==> WriteFails(io) && io(CLEAN_UP) != Dies)
  {
    ReplaceEnds(d.(tmp := Some(Complete(r))), io, 0);
  }

  predicate EvidenceDies(io: Fate) {
    io(OPEN_EVIDENCE) == Dies
    || (io(OPEN_EVIDENCE) == Works && (io(WRITE_EVIDENCE) == Dies
                                       || (io(WRITE_EVIDENCE) == Works && io(SYNC_EVIDENCE) == Dies)))
  }

  /** Evidence is whole when it could be opened and written, torn when it could be opened only, and as it
      was otherwise, as it always is without automatic discard; failures are swallowed. */
  lemma EvidenceEnds(c: Settings, d: Disk, r: Record, io: Fate)
    ensures var (after, status) := PreserveEvidence(c, d, r, io);
      && after.wal == d.wal && status != Raised
      && (status == Crashed <==> c.discardStale && EvidenceDies(io))
      && after.evidence == (if !c.discardStale || io(OPEN_EVIDENCE) != Works then d.evidence
                            else d.evidence[r.crashMarker := if io(WRITE_EVIDENCE) == Works then Complete(r) else Torn])
  {
  }

  predicate RemovalDies(io: Fate) { io(UNLINK) == Dies || (io(UNLINK) == Works && io(SYNC_REMOVAL) == Dies) }

  /** What an inspection reports: nothing there is clean; what cannot be read, or does not parse, is corrupt
      and removed; a recent record blocks; a stale one blocks or is discarded, as configured. */
  lemma InspectionMeaning(c: Settings, d: Disk, now: int, io: Fate)
    ensures var (after, found) := Inspect(c, d, now, io);
      match d.wal
      case None => found == Clean && after == d
      case Some(content) =>
        if io(READ) == Dies then found == Died && after == d
        else if io(READ) != Works || content == Torn then
          && found == (if RemovalDies(io) then Died else CorruptDiscarded)
          && after == (if io(UNLINK) == Works then d.(wal := None) else d)
        else if now - content.record.createdAt <= c.maxAge then
          found == BlockedUncommitted(content.record) && after == d
        else if !c.discardStale then found == BlockedStale(content.record) && after == d
        else
          && after.wal == (if io(READ_AGAIN) != Dies && io(UNLINK) == Works then None else d.wal)
          && found == if io(READ_AGAIN) == Dies || RemovalDies(io) || (io(READ_AGAIN) == Works && EvidenceDies(io))
                      then Died else StaleDiscarded(content.record)
  {
  }
}
