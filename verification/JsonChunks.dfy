/** Recursive splitting of a parsed JSON document: a value that fits becomes one chunk, a container
    that does not is split into its entries, and a scalar that does not fit has no chunk at all. */
module JsonChunks {

  /** One step into a document: a field of an object or an index of an array. */
  datatype Step = Field(name: string) | Index(i: nat)

  /** Objects and arrays are alike to the chunker: entries in order. */
  datatype Json = Scalar(text: string) | Container(entries: seq<Entry>)
  datatype Entry = Entry(step: Step, value: Json)

  datatype JsonChunk = JsonChunk(index: nat, path: seq<Step>, value: Json)

  /** A scalar and where it stands. */
  datatype Leaf = Leaf(path: seq<Step>, text: string)

  /** The parts of `v` that become chunks, in document order. */
  function Parts(maxSize: nat, size: Json -> nat, path: seq<Step>, v: Json): seq<(seq<Step>, Json)>
    decreases v, 1
  {
    if size(v) <= maxSize then [(path, v)]
    else if v.Container? then PartsOf(maxSize, size, path, v.entries)
    else []
  }

  function PartsOf(maxSize: nat, size: Json -> nat, path: seq<Step>, entries: seq<Entry>): seq<(seq<Step>, Json)>
    decreases entries, 0
  {
    if entries == [] then []
    else
      var n := |entries| - 1;
      assert entries[n].value < entries[n];
      PartsOf(maxSize, size, path, entries[..n])
      + Parts(maxSize, size, path + [entries[n].step], entries[n].value)
  }

  predicate Numbered(chunks: seq<JsonChunk>, parts: seq<(seq<Step>, Json)>, first: nat) {
    |chunks| == |parts| && forall i :: 0 <= i < |chunks| ==> chunks[i] == JsonChunk(first + i, parts[i].0, parts[i].1)
  }

  method ChunkValue(maxSize: nat, size: Json -> nat, path: seq<Step>, v: Json, chunkIndex: nat)
    returns (result: seq<JsonChunk>, newIndex: nat)
    ensures Numbered(result, Parts(maxSize, size, path, v), chunkIndex) && newIndex == chunkIndex + |result|
    decreases v, 1
  {
    result, newIndex := [], chunkIndex;
    if size(v) <= maxSize {
      result, newIndex := [JsonChunk(chunkIndex, path, v)], chunkIndex + 1;
    } else if v.Container? {
      result, newIndex := ChunkEntries(maxSize, size, path, v.entries, chunkIndex);
    }
  }

  method ChunkEntries(maxSize: nat, size: Json -> nat, path: seq<Step>, entries: seq<Entry>, chunkIndex: nat)
    returns (result: seq<JsonChunk>, newIndex: nat)
    ensures Numbered(result, PartsOf(maxSize, size, path, entries), chunkIndex) && newIndex == chunkIndex + |result|
    decreases entries, 0
  {
    result, newIndex := [], chunkIndex;
    for i := 0 to |entries|
      invariant Numbered(result, PartsOf(maxSize, size, path, entries[..i]), chunkIndex)
      invariant newIndex == chunkIndex + |result|
    {
      assert entries[..i + 1][..i] == entries[..i];
      assert entries[i].value < entries[i];
      var more;
      more, newIndex := ChunkValue(maxSize, size, path + [entries[i].step], entries[i].value, newIndex);
      result := result + more;
    }
    assert entries[..|entries|] == entries;
  }

  /** `chunk_json` on a document that parsed: a top-level scalar yields no chunk, whatever its size. */
  method ChunkJson(maxSize: nat, size: Json -> nat, data: Json) returns (chunks: seq<JsonChunk>)
    ensures Numbered(chunks, if data.Container? then PartsOf(maxSize, size, [], data.entries) else [], 0)
  {
    chunks := [];
    if data.Container? {
      var chunkIndex;
      chunks, chunkIndex := ChunkEntries(maxSize, size, [], data.entries, 0);
    }
  }

  // ----- what is kept and what is lost -------------------------------------------------

  function Leaves(path: seq<Step>, v: Json): multiset<Leaf>
    decreases v, 1
  {
    match v case Scalar(t) => multiset{Leaf(path, t)} case Container(es) => LeavesOf(path, es)
  }

  function LeavesOf(path: seq<Step>, entries: seq<Entry>): multiset<Leaf>
    decreases entries, 0
  {
    if entries == [] then multiset{}
    else
      var n := |entries| - 1;
      assert entries[n].value < entries[n];
      LeavesOf(path, entries[..n]) + Leaves(path + [entries[n].step], entries[n].value)
  }

  function PartLeaves(parts: seq<(seq<Step>, Json)>): multiset<Leaf> {
    if parts == [] then multiset{}
    else PartLeaves(parts[..|parts| - 1]) + Leaves(parts[|parts| - 1].0, parts[|parts| - 1].1)
  }

  /** The scalars too large for a chunk. */
  function Oversized(maxSize: nat, size: Json -> nat, path: seq<Step>, v: Json): multiset<Leaf>
    decreases v, 1
  {
    match v
    case Scalar(t) => if size(v) > maxSize then multiset{Leaf(path, t)} else multiset{}
    case Container(es) => OversizedOf(maxSize, size, path, es)
  }

  function OversizedOf(maxSize: nat, size: Json -> nat, path: seq<Step>, entries: seq<Entry>): multiset<Leaf>
    decreases entries, 0
  {
    if entries == [] then multiset{}
    else
      var n := |entries| - 1;
      assert entries[n].value < entries[n];
      OversizedOf(maxSize, size, path, entries[..n])
      + Oversized(maxSize, size, path + [entries[n].step], entries[n].value)
  }

  /** A value is at least as large as each of its parts, as serialized text is. */
  ghost predicate SizeGrows(size: Json -> nat) {
    forall c: Json, i: nat :: c.Container? && i < |c.entries| ==> size(c.entries[i].value) <= size(c)
  }

  lemma {:induction false} PartLeavesConcat(a: seq<(seq<Step>, Json)>, b: seq<(seq<Step>, Json)>)
    ensures PartLeaves(a + b) == PartLeaves(a) + PartLeaves(b)
  {
    if b == [] {
      assert a + b == a;
    } else {
      assert (a + b)[..|a + b| - 1] == a + b[..|b| - 1];
      PartLeavesConcat(a, b[..|b| - 1]);
    }
  }

  lemma {:induction false} NothingOversizedInside(maxSize: nat, size: Json -> nat, path: seq<Step>, v: Json)
    requires SizeGrows(size) && size(v) <= maxSize
    ensures Oversized(maxSize, size, path, v) == multiset{}
    decreases v, 1
  {
    if v.Container? {
      forall i | 0 <= i < |v.entries| ensures size(v.entries[i].value) <= maxSize {
        assert size(v.entries[i].value) <= size(v);
      }
      NothingOversizedIn(maxSize, size, path, v.entries);
    }
  }

  lemma {:induction false} NothingOversizedIn(maxSize: nat, size: Json -> nat, path: seq<Step>, entries: seq<Entry>)
    requires SizeGrows(size) && forall i :: 0 <= i < |entries| ==> size(entries[i].value) <= maxSize
    ensures OversizedOf(maxSize, size, path, entries) == multiset{}
    decreases entries, 0
  {
    if entries != [] {
      var n := |entries| - 1;
      assert entries[n].value < entries[n];
      NothingOversizedIn(maxSize, size, path, entries[..n]);
      NothingOversizedInside(maxSize, size, path + [entries[n].step], entries[n].value);
    }
  }

  lemma {:induction false} PartsConserve(maxSize: nat, size: Json -> nat, path: seq<Step>, v: Json)
    requires SizeGrows(size)
    ensures PartLeaves(Parts(maxSize, size, path, v)) + Oversized(maxSize, size, path, v) == Leaves(path, v)
    decreases v, 1
  {
    if size(v) <= maxSize {
      NothingOversizedInside(maxSize, size, path, v);
      assert [(path, v)][..0] == [];
    } else if v.Container? {
      EntriesConserve(maxSize, size, path, v.entries);
    }
  }

  /** Every scalar of the entries is in exactly one chunk or is too large for one: what is lost is
      exactly the scalars that do not fit. */
  lemma {:induction false} EntriesConserve(maxSize: nat, size: Json -> nat, path: seq<Step>, entries: seq<Entry>)
    requires SizeGrows(size)
    ensures PartLeaves(PartsOf(maxSize, size, path, entries)) + OversizedOf(maxSize, size, path, entries)
         == LeavesOf(path, entries)
    decreases entries, 0
  {
    if entries != [] {
      var n := |entries| - 1;
      assert entries[n].value < entries[n];
      EntriesConserve(maxSize, size, path, entries[..n]);
      PartsConserve(maxSize, size, path + [entries[n].step], entries[n].value);
      PartLeavesConcat(PartsOf(maxSize, size, path, entries[..n]),
                       Parts(maxSize, size, path + [entries[n].step], entries[n].value));
    }
  }

  /** Chunking a document keeps every scalar if and only if the document is a container and
      none of its scalars is too large. */
  lemma JsonLosesOversizedScalars(maxSize: nat, size: Json -> nat, data: Json)
    requires SizeGrows(size)
    ensures var parts := if data.Container? then PartsOf(maxSize, size, [], data.entries) else [];
      PartLeaves(parts) == Leaves([], data) <==> data.Container? && Oversized(maxSize, size, [], data) == multiset{}
  {
    if data.Container? {
      EntriesConserve(maxSize, size, [], data.entries);
      var kept := PartLeaves(PartsOf(maxSize, size, [], data.entries));
      var lost := OversizedOf(maxSize, size, [], data.entries);
      if kept + lost == kept {
        forall l ensures lost[l] == 0 { assert (kept + lost)[l] == kept[l] + lost[l]; }
      }
    } else {
      assert Leaf([], data.text) in Leaves([], data);
    }
  }

  // ----- which values become chunks ----------------------------------------------------

  /** Walking the path from `v` leads to `u` through containers that do not fit. */
  ghost predicate LeadsTo(maxSize: nat, size: Json -> nat, v: Json, path: seq<Step>, u: Json)
    decreases |path|
  {
    if path == [] then v == u
    else v.Container? && size(v) > maxSize && EntryLeadsTo(maxSize, size, v.entries, path, u)
  }

  ghost predicate EntryLeadsTo(maxSize: nat, size: Json -> nat, entries: seq<Entry>, path: seq<Step>, u: Json)
    requires path != []
    decreases |path|, 0
  {
    exists i :: 0 <= i < |entries| && entries[i].step == path[0]
      && LeadsTo(maxSize, size, entries[i].value, path[1..], u)
  }

  predicate Below(path: seq<Step>, q: seq<Step>) { |path| <= |q| && q[..|path|] == path }

  /** The value `u` at `q` is a part of `v`, which stands at `path`. */
  ghost predicate IsPart(maxSize: nat, size: Json -> nat, path: seq<Step>, v: Json, q: seq<Step>, u: Json) {
    Below(path, q) && LeadsTo(maxSize, size, v, q[|path|..], u) && size(u) <= maxSize
  }

  ghost predicate IsPartOf(maxSize: nat, size: Json -> nat, path: seq<Step>, entries: seq<Entry>, q: seq<Step>,
                           u: Json)
  {
    exists i :: 0 <= i < |entries| && IsPart(maxSize, size, path + [entries[i].step], entries[i].value, q, u)
  }

  lemma IsPartOfSnoc(maxSize: nat, size: Json -> nat, path: seq<Step>, entries: seq<Entry>, q: seq<Step>, u: Json)
    requires entries != []
    ensures var n := |entries| - 1;
      IsPartOf(maxSize, size, path, entries, q, u) <==>
        || IsPartOf(maxSize, size, path, entries[..n], q, u)
        || IsPart(maxSize, size, path + [entries[n].step], entries[n].value, q, u)
  {
    var n := |entries| - 1;
    forall i | 0 <= i < n ensures entries[..n][i] == entries[i] {}
    if i :| 0 <= i < n && IsPart(maxSize, size, path + [entries[..n][i].step], entries[..n][i].value, q, u) {
      assert IsPart(maxSize, size, path + [entries[i].step], entries[i].value, q, u);
    }
    if i :| 0 <= i < |entries| && IsPart(maxSize, size, path + [entries[i].step], entries[i].value, q, u) {
      if i < n { assert IsPart(maxSize, size, path + [entries[..n][i].step], entries[..n][i].value, q, u); }
    }
  }

  lemma BelowStep(path: seq<Step>, step: Step, q: seq<Step>)
    ensures Below(path + [step], q) <==> Below(path, q) && |q| > |path| && q[|path|] == step
    ensures Below(path + [step], q) ==> q[|path| + 1..] == q[|path|..][1..] && q[|path|..][0] == step
  {
    if Below(path + [step], q) {
      assert q[..|path|] == q[..|path| + 1][..|path|] == path;
      assert q[..|path| + 1][|path|] == step;
    }
    if Below(path, q) && |q| > |path| && q[|path|] == step {
      assert q[..|path| + 1] == q[..|path|] + [q[|path|]];
    }
  }

  /** A part of a container that does not fit is a part of one of its entries. */
  lemma PartIsEntryPart(maxSize: nat, size: Json -> nat, path: seq<Step>, v: Json, q: seq<Step>, u: Json)
    requires v.Container? && size(v) > maxSize
    ensures IsPart(maxSize, size, path, v, q, u) <==> IsPartOf(maxSize, size, path, v.entries, q, u)
  {
    forall i | 0 <= i < |v.entries|
      ensures Below(path + [v.entries[i].step], q) <==> Below(path, q) && |q| > |path| && q[|path|] == v.entries[i].step
      ensures Below(path + [v.entries[i].step], q) ==> q[|path| + 1..] == q[|path|..][1..]
    {
      BelowStep(path, v.entries[i].step, q);
    }
    if IsPart(maxSize, size, path, v, q, u) && q[|path|..] != [] {
      assert EntryLeadsTo(maxSize, size, v.entries, q[|path|..], u);
      var i :| 0 <= i < |v.entries| && v.entries[i].step == q[|path|..][0]
        && LeadsTo(maxSize, size, v.entries[i].value, q[|path|..][1..], u);
      assert IsPart(maxSize, size, path + [v.entries[i].step], v.entries[i].value, q, u);
    }
    if i :| 0 <= i < |v.entries| && IsPart(maxSize, size, path + [v.entries[i].step], v.entries[i].value, q, u) {
      assert q[|path|..][0] == v.entries[i].step && q[|path|..][1..] == q[|path| + 1..];
      assert EntryLeadsTo(maxSize, size, v.entries, q[|path|..], u);
    }
  }

  lemma LeafIsOwnPart(maxSize: nat, size: Json -> nat, path: seq<Step>, v: Json, q: seq<Step>, u: Json)
    requires size(v) <= maxSize || v.Scalar?
    ensures IsPart(maxSize, size, path, v, q, u) <==> q == path && u == v && size(v) <= maxSize
  {
    if Below(path, q) && q[|path|..] == [] { assert q == q[..|path|]; }
    if q == path { assert q[|path|..] == []; }
  }

  /** The chunks are exactly the values that fit and stand in no smaller fitting container: the way to them
      leads through containers that are too large. */
  lemma {:induction false} PartsMeaning(maxSize: nat, size: Json -> nat, path: seq<Step>, v: Json, q: seq<Step>,
                                        u: Json)
    ensures (q, u) in Parts(maxSize, size, path, v) <==> IsPart(maxSize, size, path, v, q, u)
    decreases v, 1
  {
    if size(v) <= maxSize || v.Scalar? {
      LeafIsOwnPart(maxSize, size, path, v, q, u);
    } else {
      PartsOfMeaning(maxSize, size, path, v.entries, q, u);
      PartIsEntryPart(maxSize, size, path, v, q, u);
    }
  }

  lemma {:induction false} PartsOfMeaning(maxSize: nat, size: Json -> nat, path: seq<Step>, entries: seq<Entry>,
                                          q: seq<Step>, u: Json)
    ensures (q, u) in PartsOf(maxSize, size, path, entries) <==> IsPartOf(maxSize, size, path, entries, q, u)
    decreases entries, 0
  {
    if entries != [] {
      var n := |entries| - 1;
      assert entries[n].value < entries[n];
      PartsOfMeaning(maxSize, size, path, entries[..n], q, u);
      PartsMeaning(maxSize, size, path + [entries[n].step], entries[n].value, q, u);
      IsPartOfSnoc(maxSize, size, path, entries, q, u);
    }
  }
}
