/** The shared blackboard: a key-value store bounded in keys, item sizes and total size,
    saved to a file and reloaded. */
module BlackboardStore {
  import opened PyText

  const MAX_KEYS := 256
  const MAX_KEY_BYTES := 512
  const MAX_VALUE_BYTES := 16 * 1024
  const MAX_TOTAL_BYTES := 256 * 1024

  function EntryBytes(k: string, v: string): nat { Utf8Len(k) + Utf8Len(v) }

  type Data = map<string, string>

  /** The size of all entries together. */
  ghost function Total(m: Data): nat {
    if m == map[] then 0
    else
      var k :| k in m;
      EntryBytes(k, m[k]) + Total(m - {k})
  }

  /** The sum does not depend on the order of the keys: any key may be taken out first. */
  lemma {:induction false} TotalTakeOut(m: Data, k: string)
    requires k in m
    ensures Total(m) == EntryBytes(k, m[k]) + Total(m - {k})
    decreases |m|
  {
    var x :| x in m && Total(m) == EntryBytes(x, m[x]) + Total(m - {x});
    if x != k {
      assert |m - {x}| < |m| by { assert (m - {x}).Keys == m.Keys - {x}; }
      assert |m - {k}| < |m| by { assert (m - {k}).Keys == m.Keys - {k}; }
      TotalTakeOut(m - {x}, k);
      TotalTakeOut(m - {k}, x);
      assert m - {x} - {k} == m - {k} - {x};
    }
  }

  lemma TotalUpdate(m: Data, k: string, v: string)
    ensures Total(m[k := v]) == Total(m) - (if k in m then EntryBytes(k, m[k]) else 0) + EntryBytes(k, v)
  {
    TotalTakeOut(m[k := v], k);
    if k in m {
      TotalTakeOut(m, k);
      assert m[k := v] - {k} == m - {k};
    } else {
      assert m[k := v] - {k} == m;
    }
  }

  /** All limits at once. */
  ghost predicate Fits(m: Data) {
    && |m| <= MAX_KEYS
    && (forall k :: k in m ==> Utf8Len(k) <= MAX_KEY_BYTES && Utf8Len(m[k]) <= MAX_VALUE_BYTES)
    && Total(m) <= MAX_TOTAL_BYTES
  }

  datatype LimitError = KeyTooLarge | ValueTooLarge | TooManyKeys | TotalTooLarge

  /** Which limit setting `k` to `v` would break, looked at in this order. */
  ghost function Check(m: Data, k: string, v: string): Option<LimitError> {
    if Utf8Len(k) > MAX_KEY_BYTES then Some(KeyTooLarge)
    else if Utf8Len(v) > MAX_VALUE_BYTES then Some(ValueTooLarge)
    else if k !in m && |m| >= MAX_KEYS then Some(TooManyKeys)
    else if Total(m) - (if k in m then EntryBytes(k, m[k]) else 0) + EntryBytes(k, v) > MAX_TOTAL_BYTES then
      Some(TotalTooLarge)
    else None
  }

  /** The checks accept an entry exactly when the board that results keeps all limits. */
  lemma AcceptedIffFits(m: Data, k: string, v: string)
    requires Fits(m)
    ensures Check(m, k, v) == None <==> Fits(m[k := v])
  {
    TotalUpdate(m, k, v);
    var after := m[k := v];
    if k !in m { assert after.Keys == m.Keys + {k}; } else { assert after.Keys == m.Keys; }
    assert k in after && after[k] == v;
  }

  // ----- files -------------------------------------------------------------------------

  /** An entry of a JSON object; a value that is no string is None. */
  datatype Entry = Entry(key: string, value: Option<string>)

  datatype File = Absent | Unreadable | Object(entries: seq<Entry>)

  /** Every entry is one of the board's. */
  ghost predicate Names(entries: seq<Entry>, m: Data) {
    forall i :: 0 <= i < |entries| ==> entries[i].key in m && entries[i].value == Some(m[entries[i].key])
  }

  /** `entries` lists the entries of `m`, each once, in some order. */
  ghost predicate Lists(entries: seq<Entry>, m: Data) {
    && Names(entries, m)
    && (forall i, j :: 0 <= i < j < |entries| ==> entries[i].key != entries[j].key)
    && (forall k :: k in m ==> exists i :: 0 <= i < |entries| && entries[i].key == k)
  }

  /** Loading entry by entry: what breaks a limit, or is no string, is skipped. */
  ghost function LoadEntries(entries: seq<Entry>): Data {
    if entries == [] then map[]
    else
      var before, e := LoadEntries(entries[..|entries| - 1]), entries[|entries| - 1];
      if e.value.Some? && Check(before, e.key, e.value.value) == None then before[e.key := e.value.value] else before
  }

  ghost function Load(file: File): Data {
    match file case Object(entries) => LoadEntries(entries) case _ => map[]
  }

  function SumBytes(entries: seq<Entry>): nat {
    if entries == [] then 0
    else
      var e := entries[|entries| - 1];
      SumBytes(entries[..|entries| - 1]) + Utf8Len(e.key) + if e.value.Some? then Utf8Len(e.value.value) else 0
  }

  lemma ListsFront(entries: seq<Entry>, m: Data)
    requires Lists(entries, m) && entries != []
    ensures Lists(entries[..|entries| - 1], m - {entries[|entries| - 1].key})
  {
    var front, last := entries[..|entries| - 1], entries[|entries| - 1];
    forall k | k in m && k != last.key ensures exists i :: 0 <= i < |front| && front[i].key == k {
      var i :| 0 <= i < |entries| && entries[i].key == k;
      assert front[i].key == k;
    }
  }

  /** The size of a board is the sum over any listing of its entries. */
  lemma {:induction false} TotalIsSum(entries: seq<Entry>, m: Data)
    requires Lists(entries, m)
    ensures Total(m) == SumBytes(entries)
  {
    if entries == [] {
      assert m == map[];
    } else {
      var last := entries[|entries| - 1];
      ListsFront(entries, m);
      TotalIsSum(entries[..|entries| - 1], m - {last.key});
      TotalTakeOut(m, last.key);
    }
  }

  lemma {:induction false} ListsAsMany(entries: seq<Entry>, m: Data)
    requires Lists(entries, m)
    ensures |m| == |entries|
  {
    if entries == [] {
      assert m == map[];
    } else {
      var last := entries[|entries| - 1];
      ListsFront(entries, m);
      ListsAsMany(entries[..|entries| - 1], m - {last.key});
      assert (m - {last.key}).Keys == m.Keys - {last.key};
    }
  }

  predicate SmallEntry(e: Entry) { Utf8Len(e.key) <= 512 && e.value.Some? && Utf8Len(e.value.value) <= 16384 }

  /** The limits, told by a listing of the board: at most 256 entries, keys of at most 512 bytes, values of at
      most 16 KiB, and all of them together at most 256 KiB. */
  lemma LimitsMeaning(entries: seq<Entry>, m: Data)
    requires Lists(entries, m)
    ensures Fits(m) <==>
      && |entries| <= 256 && SumBytes(entries) <= 262144
      && forall i :: 0 <= i < |entries| ==> SmallEntry(entries[i])
  {
    ListsAsMany(entries, m);
    TotalIsSum(entries, m);
    if forall i :: 0 <= i < |entries| ==> SmallEntry(entries[i]) {
      forall k | k in m ensures Utf8Len(k) <= MAX_KEY_BYTES && Utf8Len(m[k]) <= MAX_VALUE_BYTES {
        var i :| 0 <= i < |entries| && entries[i].key == k;
        assert SmallEntry(entries[i]);
      }
    }
  }

  /** Reading a file: an entry is taken over exactly when it is a string and the board read so far keeps all
      limits with it; otherwise it changes nothing. */
  lemma LoadedIfFits(entries: seq<Entry>, i: nat)
    requires i < |entries|
    ensures var before, after, e := LoadEntries(entries[..i]), LoadEntries(entries[..i + 1]), entries[i];
      after == if e.value.Some? && Fits(before[e.key := e.value.value]) then before[e.key := e.value.value] else before
  {
    assert entries[..i + 1][..i] == entries[..i];
    LoadedBoardFits(entries[..i]);
    if entries[i].value.Some? { AcceptedIffFits(LoadEntries(entries[..i]), entries[i].key, entries[i].value.value); }
  }

  lemma EmptyFits()
    ensures Fits(map[])
  {
  }

  /** Whatever the file holds, the board loaded from it keeps the limits. */
  lemma {:induction false} LoadedBoardFits(entries: seq<Entry>)
    ensures Fits(LoadEntries(entries))
  {
    if entries == [] {
      EmptyFits();
    } else {
      var before, e := LoadEntries(entries[..|entries| - 1]), entries[|entries| - 1];
      LoadedBoardFits(entries[..|entries| - 1]);
      if e.value.Some? { AcceptedIffFits(before, e.key, e.value.value); }
    }
  }

  predicate PartOf(a: Data, b: Data) { forall k :: k in a ==> k in b && a[k] == b[k] }

  lemma {:induction false} PartIsSmaller(a: Data, b: Data)
    requires PartOf(a, b)
    ensures |a| <= |b| && Total(a) <= Total(b)
    decreases |b|
  {
    if a != map[] {
      var k :| k in a;
      assert (a - {k}).Keys == a.Keys - {k} && (b - {k}).Keys == b.Keys - {k};
      PartIsSmaller(a - {k}, b - {k});
      TotalTakeOut(a, k);
      TotalTakeOut(b, k);
    }
  }

  /** Part of a board that keeps the limits keeps them. */
  lemma PartFits(a: Data, b: Data)
    requires PartOf(a, b) && Fits(b)
    ensures Fits(a)
  {
    PartIsSmaller(a, b);
  }

  /** Loading one more entry of a board that keeps the limits: it is accepted. */
  lemma LoadOneMore(entries: seq<Entry>, m: Data, n: nat, before: Data)
    requires Fits(m) && Names(entries, m) && n < |entries| && PartOf(before, m)
    ensures PartOf(before[entries[n].key := entries[n].value.value], m)
    ensures Check(before, entries[n].key, entries[n].value.value) == None
  {
    var e := entries[n];
    PartFits(before, m);
    PartFits(before[e.key := e.value.value], m);
    AcceptedIffFits(before, e.key, e.value.value);
  }

  lemma {:induction false} LoadPrefix(entries: seq<Entry>, m: Data, n: nat)
    requires Fits(m) && Names(entries, m) && n <= |entries|
    ensures PartOf(LoadEntries(entries[..n]), m)
  {
    if n > 0 {
      LoadPrefix(entries, m, n - 1);
      LoadStep(entries, m, n - 1);
    }
  }

  lemma LoadStep(entries: seq<Entry>, m: Data, n: nat)
    requires Fits(m) && Names(entries, m) && n < |entries| && PartOf(LoadEntries(entries[..n]), m)
    ensures LoadEntries(entries[..n + 1]) == LoadEntries(entries[..n])[entries[n].key := entries[n].value.value]
    ensures PartOf(LoadEntries(entries[..n + 1]), m)
  {
    assert entries[..n + 1][..n] == entries[..n];
    LoadOneMore(entries, m, n, LoadEntries(entries[..n]));
  }

  lemma {:induction false} LoadHolds(entries: seq<Entry>, m: Data, n: nat, i: nat)
    requires Fits(m) && Names(entries, m) && i < n <= |entries|
    ensures entries[i].key in LoadEntries(entries[..n])
  {
    LoadPrefix(entries, m, n - 1);
    LoadStep(entries, m, n - 1);
    if i < n - 1 { LoadHolds(entries, m, n - 1, i); }
  }

  /** Loading a saved board that keeps the limits gives it back unchanged, in whatever order its keys were written. */
  lemma ReloadRestores(entries: seq<Entry>, m: Data)
    requires Fits(m) && Lists(entries, m)
    ensures LoadEntries(entries) == m
  {
    LoadPrefix(entries, m, |entries|);
    forall i | 0 <= i < |entries| ensures entries[i].key in LoadEntries(entries[..|entries|]) {
      LoadHolds(entries, m, |entries|, i);
    }
    assert entries[..|entries|] == entries;
  }

  /** One more entry is written: `left` are those still to come. */
  lemma OneMoreSaved(entries: seq<Entry>, data: Data, left: Data, k: string)
    requires Lists(entries, data - left.Keys) && PartOf(left, data) && k in left
    ensures Lists(entries + [Entry(k, Some(left[k]))], data - (left - {k}).Keys)
    ensures PartOf(left - {k}, data) && |left - {k}| < |left|
  {
    ListsSnoc(entries, data - left.Keys, k, left[k]);
    assert (left - {k}).Keys == left.Keys - {k};
    assert (data - left.Keys)[k := left[k]] == data - (left - {k}).Keys;
  }

  // ----- the class ---------------------------------------------------------------------

  datatype SetResult = Ignored | Rejected(error: LimitError) | Done | SaveFailed

  class Blackboard {
    var data: Data
    var file: File

    ghost predicate Valid() reads this { Fits(data) }

    method CurrentTotalBytes() returns (total: nat)
      ensures total == Total(data)
    {
      total := 0;
      var left := data;
      while left != map[]
        invariant total + Total(left) == Total(data)
        decreases |left|
      {
        var k :| k in left;
        TotalTakeOut(left, k);
        assert (left - {k}).Keys == left.Keys - {k};
        total := total + Utf8Len(k) + Utf8Len(left[k]);
        left := left - {k};
      }
    }

    method ValidateLimits(key: string, value: string) returns (error: Option<LimitError>)
      ensures error == Check(data, key, value)
    {
      var keyBytes := Utf8Len(key);
      if keyBytes > MAX_KEY_BYTES { return Some(KeyTooLarge); }
      var valueBytes := Utf8Len(value);
      if valueBytes > MAX_VALUE_BYTES { return Some(ValueTooLarge); }
      if key !in data && |data| >= MAX_KEYS { return Some(TooManyKeys); }
      var previousValue := if key in data then data[key] else "";
      var current := CurrentTotalBytes();
      var projected := current - (if key in data then Utf8Len(key) + Utf8Len(previousValue) else 0)
        + keyBytes + valueBytes;
      if projected > MAX_TOTAL_BYTES { return Some(TotalTooLarge); }
      return None;
    }

    /** Writes the entries in some order and replaces the file, or fails and leaves it as it was. */
    method Save(works: bool) returns (ok: bool)
      modifies this`file
      ensures ok == works
      ensures if ok then file.Object? && Lists(file.entries, data) else file == old(file)
    {
      if !works { return false; }
      var entries: seq<Entry> := [];
      var left := data;
      while left != map[]
        invariant Lists(entries, data - left.Keys) && PartOf(left, data)
        decreases |left|
      {
        var k :| k in left;
        OneMoreSaved(entries, data, left, k);
        entries, left := entries + [Entry(k, Some(left[k]))], left - {k};
      }
      assert data - left.Keys == data;
      file := Object(entries);
      return true;
    }

    constructor (file: File)
      ensures data == Load(file) && this.file == file && Valid()
    {
      this.file := file;
      this.data := map[];
      new;
      EmptyFits();
      if file.Object? {
        var entries := file.entries;
        LoadedBoardFits(entries);
        for i := 0 to |entries|
          invariant data == LoadEntries(entries[..i]) && this.file == file
        {
          assert entries[..i + 1][..i] == entries[..i];
          var e := entries[i];
          if e.value.Some? {
            var error := ValidateLimits(e.key, e.value.value);
            if error == None {
              data := data[e.key := e.value.value];
            }
          }
        }
        assert entries[..|entries|] == entries;
      }
    }

    method Set(key: string, value: string, works: bool) returns (r: SetResult)
      requires Valid()
      modifies this
      ensures Valid()
      ensures r == Ignored <==> key == ""
      ensures r.Rejected? ==> !Fits(old(data)[key := value]) && Some(r.error) == Check(old(data), key, value)
      ensures r == Ignored || r.Rejected? ==> data == old(data) && file == old(file)
      ensures r == Done || r == SaveFailed ==> data == old(data)[key := value]
      ensures r == Done ==> works && file.Object? && Lists(file.entries, data)
      ensures r == SaveFailed ==> !works && file == old(file)
    {
      if key == "" { return Ignored; }
      AcceptedIffFits(data, key, value);
      var error := ValidateLimits(key, value);
      if error.Some? { return Rejected(error.value); }
      data := data[key := value];
      var ok := Save(works);
      return if ok then Done else SaveFailed;
    }
  }

  lemma ListsSnoc(entries: seq<Entry>, m: Data, k: string, v: string)
    requires Lists(entries, m) && k !in m
    ensures Lists(entries + [Entry(k, Some(v))], m[k := v])
  {
    var more, after := entries + [Entry(k, Some(v))], m[k := v];
    forall x | x in after ensures exists i :: 0 <= i < |more| && more[i].key == x {
      if x == k {
        assert more[|entries|].key == x;
      } else {
        var i :| 0 <= i < |entries| && entries[i].key == x;
        assert more[i].key == x;
      }
    }
  }

  // ----- whole runs --------------------------------------------------------------------

  /** A step of a process life: setting (with what the save wrote, if it worked), flushing, or
      starting anew from the file. */
  datatype Op = Put(key: string, value: string, written: Option<seq<Entry>>) | Flush(written: Option<seq<Entry>>)
              | Restart

  /** The board in memory, the file, and the board that was saved last. */
  datatype Board = Board(data: Data, file: File, saved: Data)

  ghost predicate CanWrite(written: Option<seq<Entry>>, data: Data) { written.Some? ==> Lists(written.value, data) }

  ghost function Written(b: Board, written: Option<seq<Entry>>): Board {
    match written case Some(es) => Board(b.data, Object(es), b.data) case None => b
  }

  ghost predicate Possible(b: Board, op: Op) {
    match op
    case Put(k, v, w) => k != "" && Check(b.data, k, v) == None ==> CanWrite(w, b.data[k := v])
    case Flush(w) => CanWrite(w, b.data)
    case Restart => true
  }

  ghost function Next(b: Board, op: Op): Board {
    match op
    case Put(k, v, w) => if k == "" || Check(b.data, k, v) != None then b else Written(b.(data := b.data[k := v]), w)
    case Flush(w) => Written(b, w)
    case Restart => b.(data := Load(b.file))
  }

  ghost function After(ops: seq<Op>): Board {
    if ops == [] then Board(map[], Absent, map[]) else Next(After(ops[..|ops| - 1]), ops[|ops| - 1])
  }

  ghost predicate PossibleRun(ops: seq<Op>) {
    ops == [] || (PossibleRun(ops[..|ops| - 1]) && Possible(After(ops[..|ops| - 1]), ops[|ops| - 1]))
  }

  /** Over every run the board keeps its limits, and starting anew gives exactly the board that was saved last. */
  lemma {:induction false} RunsKeepLimitsAndLastSave(ops: seq<Op>)
    requires PossibleRun(ops)
    ensures Fits(After(ops).data) && Fits(After(ops).saved)
    ensures Load(After(ops).file) == After(ops).saved
  {
    if ops == [] {
      EmptyFits();
    } else {
      var b, op := After(ops[..|ops| - 1]), ops[|ops| - 1];
      RunsKeepLimitsAndLastSave(ops[..|ops| - 1]);
      match op
      case Put(k, v, w) =>
        AcceptedIffFits(b.data, k, v);
        if k != "" && Check(b.data, k, v) == None && w.Some? { ReloadRestores(w.value, b.data[k := v]); }
      case Flush(w) => if w.Some? { ReloadRestores(w.value, b.data); }
      case Restart =>
    }
  }
}
