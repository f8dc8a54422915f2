/** Collecting, merging and ranking search results that arrive in any completion order. */
module SearchMerge {
  import opened PyText
  import opened PyCollections

  datatype Hit = Hit(documentId: string, chunkIndex: string, score: real,
                     collectionId: string, filename: string, excerpt: string)

  /** A vector-store result: texts that are missing or of the wrong type are None, and so is a score of the
      wrong type; a missing score is Some(0.0), as the program reads it. */
  datatype Raw = Raw(score: Option<real>, documentId: Option<string>, chunkIndex: Option<string>,
                     collectionId: Option<string>, filename: Option<string>, excerpt: Option<string>)

  function RequiredText(value: Option<string>): string {
    match value case Some(v) => Strip(v) case None => ""
  }

  /** The hit a raw result stands for, unless it is irrelevant or malformed. */
  function Accept(raw: Raw, threshold: real): Option<Hit> {
    if raw.score == None || raw.score.value < threshold then None
    else
      var h := Hit(RequiredText(raw.documentId), match raw.chunkIndex case Some(c) => c case None => "0",
                   raw.score.value, RequiredText(raw.collectionId), RequiredText(raw.filename),
                   RequiredText(raw.excerpt));
      if h.documentId == "" || h.collectionId == "" || h.filename == "" || h.excerpt == "" then None else Some(h)
  }

  predicate HasText(value: Option<string>) { value.Some? && !Blank(value.value) }

  lemma RequiredTextMeaning(value: Option<string>)
    ensures RequiredText(value) != "" <==> HasText(value)
  {
    if value.Some? { StripKeepsTheMiddle(value.value); }
  }

  /** A raw result becomes a hit exactly when its score is valid and reaches the threshold and its four texts
      are not blank; the hit holds its score, its stripped texts, and its index or "0". */
  lemma AcceptMeaning(raw: Raw, threshold: real)
    ensures Accept(raw, threshold).Some? <==>
      && raw.score.Some? && raw.score.value >= threshold
      && HasText(raw.documentId) && HasText(raw.collectionId) && HasText(raw.filename) && HasText(raw.excerpt)
    ensures Accept(raw, threshold).Some? ==>
      var h := Accept(raw, threshold).value;
      && h.score == raw.score.value && h.chunkIndex == (if raw.chunkIndex.Some? then raw.chunkIndex.value else "0")
      && h.documentId == Strip(raw.documentId.value) && h.collectionId == Strip(raw.collectionId.value)
      && h.filename == Strip(raw.filename.value) && h.excerpt == Strip(raw.excerpt.value)
  {
    RequiredTextMeaning(raw.documentId);
    RequiredTextMeaning(raw.collectionId);
    RequiredTextMeaning(raw.filename);
    RequiredTextMeaning(raw.excerpt);
  }

  function Accepted(raws: seq<Raw>, threshold: real): seq<Hit> {
    if raws == [] then []
    else
      var before := Accepted(raws[..|raws| - 1], threshold);
      match Accept(raws[|raws| - 1], threshold) case Some(h) => before + [h] case None => before
  }

  method SearchCollection(raws: seq<Raw>, threshold: real) returns (results: seq<Hit>)
    ensures results == Accepted(raws, threshold)
  {
    results := [];
    for i := 0 to |raws|
      invariant results == Accepted(raws[..i], threshold)
    {
      assert raws[..i + 1][..i] == raws[..i];
      match Accept(raws[i], threshold)
      case Some(h) => results := results + [h];
      case None =>
    }
    assert raws[..|raws|] == raws;
  }

  /** The hit that a raw result stands for, if any, as a list. */
  function Contribution(raw: Raw, threshold: real): seq<Hit> {
    match Accept(raw, threshold) case Some(h) => [h] case None => []
  }

  lemma AcceptedSnoc(a: seq<Raw>, raw: Raw, all: seq<Raw>, threshold: real)
    requires all == a + [raw]
    ensures Accepted(all, threshold) == Accepted(a, threshold) + Contribution(raw, threshold)
  {
    assert all[..|a|] == a;
  }

  lemma Reassociate<T>(a: seq<T>, b: seq<T>, c: seq<T>)
    ensures a + (b + c) == a + b + c
  {
  }

  lemma {:induction false} AcceptedConcat(a: seq<Raw>, b: seq<Raw>, all: seq<Raw>, threshold: real)
    requires all == a + b
    ensures Accepted(all, threshold) == Accepted(a, threshold) + Accepted(b, threshold)
  {
    if b == [] {
      assert all == a;
    } else {
      var front, last := b[..|b| - 1], b[|b| - 1];
      AcceptedConcat(a, front, all[..|all| - 1], threshold);
      AcceptedSnoc(front, last, b, threshold);
      AcceptedSnoc(all[..|all| - 1], last, all, threshold);
      Reassociate(Accepted(a, threshold), Accepted(front, threshold), Contribution(last, threshold));
    }
  }

  /** Each raw result takes part on its own and in its place. */
  lemma AcceptedInOrder(a: seq<Raw>, raw: Raw, b: seq<Raw>, threshold: real)
    ensures Accepted(a + [raw] + b, threshold)
         == Accepted(a, threshold) + Contribution(raw, threshold) + Accepted(b, threshold)
    ensures Contribution(raw, threshold) == match Accept(raw, threshold) case Some(h) => [h] case None => []
  {
    AcceptedSnoc(a, raw, a + [raw], threshold);
    AcceptedConcat(a + [raw], b, a + [raw] + b, threshold);
  }

  function ChunkKey(h: Hit): string { h.documentId + ":" + h.chunkIndex }

  // ----- what a key identifies ---------------------------------------------------------

  predicate SameChunk(a: Hit, b: Hit) { a.documentId == b.documentId && a.chunkIndex == b.chunkIndex }

  /** A colon inside `a`'s index and one inside `b`'s document id make up for each other. */
  ghost predicate Straddles(a: Hit, b: Hit) {
    exists m: string :: b.documentId == a.documentId + ":" + m && a.chunkIndex == m + ":" + b.chunkIndex
  }

  lemma ShorterDocument(a: Hit, b: Hit)
    requires ChunkKey(a) == ChunkKey(b) && |a.documentId| < |b.documentId|
    ensures Straddles(a, b)
  {
    var n, key := |a.documentId|, ChunkKey(a);
    var m := b.documentId[n + 1..];
    assert key[..n] == a.documentId && key[n..n + 1] == ":" && key[n + 1..] == a.chunkIndex;
    assert b.documentId == key[..|b.documentId|] == key[..n] + key[n..n + 1] + m;
    assert key[n + 1..] == m + ":" + b.chunkIndex;
  }

  lemma StraddlesCollide(a: Hit, b: Hit)
    requires Straddles(a, b)
    ensures ChunkKey(a) == ChunkKey(b)
  {
    var m: string :| b.documentId == a.documentId + ":" + m && a.chunkIndex == m + ":" + b.chunkIndex;
    assert a.documentId + ":" + (m + ":" + b.chunkIndex) == a.documentId + ":" + m + ":" + b.chunkIndex;
  }

  lemma SameLengthDocument(a: Hit, b: Hit)
    requires ChunkKey(a) == ChunkKey(b) && |a.documentId| == |b.documentId|
    ensures SameChunk(a, b)
  {
    var n := |a.documentId|;
    assert a.documentId == ChunkKey(a)[..n] == b.documentId;
    assert a.chunkIndex == ChunkKey(a)[n + 1..] == b.chunkIndex;
  }

  /** Two hits share a key exactly when they are on the same chunk or a colon is read two ways. */
  lemma KeysCollideIff(a: Hit, b: Hit)
    ensures ChunkKey(a) == ChunkKey(b) <==> SameChunk(a, b) || Straddles(a, b) || Straddles(b, a)
  {
    if ChunkKey(a) == ChunkKey(b) {
      if |a.documentId| == |b.documentId| { SameLengthDocument(a, b); }
      else if |a.documentId| < |b.documentId| { ShorterDocument(a, b); }
      else { ShorterDocument(b, a); }
    }
    if Straddles(a, b) { StraddlesCollide(a, b); }
    if Straddles(b, a) { StraddlesCollide(b, a); }
  }

  lemma StraddlingTakesColon(a: Hit, b: Hit)
    requires Straddles(a, b)
    ensures ':' in a.chunkIndex
  {
    var m: string :| b.documentId == a.documentId + ":" + m && a.chunkIndex == m + ":" + b.chunkIndex;
    assert a.chunkIndex[|m|] == ':';
  }

  /** A key names one chunk when indices hold no colon, as numbers do not. */
  lemma KeyIdentifiesChunk(a: Hit, b: Hit)
    requires ':' !in a.chunkIndex && ':' !in b.chunkIndex
    ensures ChunkKey(a) == ChunkKey(b) <==> SameChunk(a, b)
  {
    KeysCollideIff(a, b);
    if Straddles(a, b) { StraddlingTakesColon(a, b); }
    if Straddles(b, a) { StraddlingTakesColon(b, a); }
  }

  // ----- merging -----------------------------------------------------------------------

  type Table = Dict<string, Hit>

  /** A hit enters the table when its chunk is new, or when it beats the hit that stands there. */
  function Upsert(d: Table, h: Hit): Table {
    if ChunkKey(h) !in d.data || h.score > d.data[ChunkKey(h)].score then d.Set(ChunkKey(h), h) else d
  }

  function MergeHits(hits: seq<Hit>): (d: Table)
    ensures d.Valid()
  {
    if hits == [] then EmptyDict() else Upsert(MergeHits(hits[..|hits| - 1]), hits[|hits| - 1])
  }

  /** All hits of the jobs in completion order; a job that raised contributes nothing. */
  function Arrived(jobs: seq<Option<seq<Hit>>>): seq<Hit> {
    if jobs == [] then []
    else Arrived(jobs[..|jobs| - 1]) + match jobs[|jobs| - 1] case Some(hits) => hits case None => []
  }

  lemma MergeHitsSnoc(hits: seq<Hit>, h: Hit)
    ensures MergeHits(hits + [h]) == Upsert(MergeHits(hits), h)
  {
    assert (hits + [h])[..|hits|] == hits;
  }

  lemma OneMore<T>(before: seq<T>, results: seq<T>, j: nat)
    requires j < |results|
    ensures before + results[..j + 1] == before + results[..j] + [results[j]]
  {
  }

  lemma OneMoreHit(before: seq<Hit>, results: seq<Hit>, j: nat)
    requires j < |results|
    ensures MergeHits(before + results[..j + 1]) == Upsert(MergeHits(before + results[..j]), results[j])
  {
    OneMore(before, results, j);
    MergeHitsSnoc(before + results[..j], results[j]);
  }

  /** The inner loop: one finished job enters the table. */
  method MergeBatch(seen: Table, results: seq<Hit>, ghost before: seq<Hit>) returns (seenChunks: Table)
    requires seen == MergeHits(before)
    ensures seenChunks == MergeHits(before + results)
  {
    seenChunks := seen;
    assert before + results[..0] == before;
    for j := 0 to |results|
      invariant seenChunks == MergeHits(before + results[..j])
    {
      var r := results[j];
      OneMoreHit(before, results, j);
      if ChunkKey(r) !in seenChunks.data || r.score > seenChunks.data[ChunkKey(r)].score {
        seenChunks := seenChunks.Set(ChunkKey(r), r);
      }
    }
    assert results[..|results|] == results;
  }

  method MergeResults(jobs: seq<Option<seq<Hit>>>) returns (seenChunks: Table)
    ensures seenChunks == MergeHits(Arrived(jobs))
  {
    seenChunks := EmptyDict();
    for i := 0 to |jobs|
      invariant seenChunks == MergeHits(Arrived(jobs[..i]))
    {
      assert jobs[..i + 1][..i] == jobs[..i];
      match jobs[i]
      case Some(results) => seenChunks := MergeBatch(seenChunks, results, Arrived(jobs[..i]));
      case None => assert Arrived(jobs[..i]) + [] == Arrived(jobs[..i]);
    }
    assert jobs[..|jobs|] == jobs;
  }

  /** `s[:k]`, for any integer k. */
  function Take<T>(s: seq<T>, k: int): seq<T> {
    if k >= |s| then s else if k >= 0 then s[..k] else if |s| + k > 0 then s[..|s| + k] else []
  }

  /** A limit of zero or more takes that many from the front, or all there are; a negative one leaves out
      that many at the end, or everything. */
  lemma TakeMeaning<T>(s: seq<T>, k: int)
    ensures Take(s, k) <= s
    ensures k >= 0 ==> |Take(s, k)| == k || (k > |s| && Take(s, k) == s)
    ensures k < 0 ==> |s| - |Take(s, k)| == -k || (-k > |s| && Take(s, k) == [])
  {
    if 0 <= k < |s| { assert Take(s, k) == s[..k]; }
  }

  const SCORE: Hit -> real := (h: Hit) => h.score

  function Ranked(hits: seq<Hit>): seq<Hit> { SortDesc(SCORE, MergeHits(hits).Values()) }

  /** The merge and rank part of `search`. */
  method Search(jobs: seq<Option<seq<Hit>>>, topK: int) returns (top: seq<Hit>)
    ensures top == Take(Ranked(Arrived(jobs)), topK)
  {
    var seenChunks := MergeResults(jobs);
    var allResults := SortDesc(SCORE, seenChunks.Values());
    top := Take(allResults, topK);
  }

  // ----- what the table holds ----------------------------------------------------------

  /** One entry per chunk that was hit, and no hit on that chunk scores higher. */
  ghost predicate HoldsBest(d: Table, hits: seq<Hit>) {
    && (forall h :: h in hits ==> ChunkKey(h) in d.data && h.score <= d.data[ChunkKey(h)].score)
    && (forall k :: k in d.data ==> d.data[k] in hits && ChunkKey(d.data[k]) == k)
  }

  lemma UpsertHoldsBest(d: Table, hits: seq<Hit>, h: Hit)
    requires HoldsBest(d, hits)
    ensures HoldsBest(Upsert(d, h), hits + [h])
  {
  }

  lemma {:induction false} MergeHoldsBest(hits: seq<Hit>)
    ensures HoldsBest(MergeHits(hits), hits)
  {
    if hits != [] {
      var n := |hits| - 1;
      MergeHoldsBest(hits[..n]);
      UpsertHoldsBest(MergeHits(hits[..n]), hits[..n], hits[n]);
      assert hits == hits[..n] + [hits[n]];
    }
  }

  function BestScores(d: Table): map<string, real> { map k | k in d.data :: d.data[k].score }

  /** The two sequences have the same elements, whatever their order. */
  ghost predicate SameElements<T(!new)>(a: seq<T>, b: seq<T>) { forall x :: x in a <==> x in b }

  lemma {:induction false} ArrivedElements(jobs: seq<Option<seq<Hit>>>, h: Hit)
    ensures h in Arrived(jobs) <==> exists i :: 0 <= i < |jobs| && jobs[i].Some? && h in jobs[i].value
  {
    if jobs != [] {
      ArrivedElements(jobs[..|jobs| - 1], h);
    }
  }

  lemma ArrivedInAnyOrder(p: seq<Option<seq<Hit>>>, q: seq<Option<seq<Hit>>>)
    requires multiset(p) == multiset(q)
    ensures SameElements(Arrived(p), Arrived(q))
  {
    forall h ensures h in Arrived(p) <==> h in Arrived(q) {
      ArrivedElements(p, h);
      ArrivedElements(q, h);
      forall i | 0 <= i < |p| ensures p[i] in q { assert p[i] in multiset(p); }
      forall i | 0 <= i < |q| ensures q[i] in p { assert q[i] in multiset(q); }
    }
  }

  /** Merging is confluent: in any two completion orders the table has the same chunks with the same best scores. */
  lemma MergeIsConfluent(p: seq<Option<seq<Hit>>>, q: seq<Option<seq<Hit>>>)
    requires multiset(p) == multiset(q)
    ensures BestScores(MergeHits(Arrived(p))) == BestScores(MergeHits(Arrived(q)))
  {
    ArrivedInAnyOrder(p, q);
    MergeHoldsBest(Arrived(p));
    MergeHoldsBest(Arrived(q));
    SameBest(MergeHits(Arrived(p)), Arrived(p), MergeHits(Arrived(q)), Arrived(q));
  }

  lemma SameBest(d: Table, hits: seq<Hit>, d': Table, hits': seq<Hit>)
    requires HoldsBest(d, hits) && HoldsBest(d', hits') && SameElements(hits, hits')
    ensures BestScores(d) == BestScores(d')
  {
    NoneBetter(d, hits, d', hits');
    NoneBetter(d', hits', d, hits);
  }

  lemma NoneBetter(d: Table, hits: seq<Hit>, d': Table, hits': seq<Hit>)
    requires HoldsBest(d, hits) && HoldsBest(d', hits') && SameElements(hits, hits')
    ensures forall k :: k in d.data ==> k in d'.data && d.data[k].score <= d'.data[k].score
  {
    forall k | k in d.data ensures k in d'.data && d.data[k].score <= d'.data[k].score {
      var h := d.data[k];
      assert h in hits';
    }
  }

  // ----- ranking -----------------------------------------------------------------------

  function Scores(hits: seq<Hit>): (r: seq<real>)
    ensures |r| == |hits| && forall i :: 0 <= i < |r| ==> r[i] == hits[i].score
  {
    seq(|hits|, i requires 0 <= i < |hits| => hits[i].score)
  }

  const SELF: real -> real := (x: real) => x

  lemma {:induction false} ScoresOfInsert(s: seq<Hit>, h: Hit)
    ensures Scores(Insert(SCORE, s, h)) == Insert(SELF, Scores(s), h.score)
  {
    if s != [] && s[|s| - 1].score < h.score {
      ScoresOfInsert(s[..|s| - 1], h);
      assert Scores(s)[..|s| - 1] == Scores(s[..|s| - 1]);
    }
  }

  /** Ranking hits and ranking their scores come to the same. */
  lemma {:induction false} ScoresOfSort(s: seq<Hit>)
    ensures Scores(SortDesc(SCORE, s)) == SortDesc(SELF, Scores(s))
  {
    if s != [] {
      var n := |s| - 1;
      ScoresOfSort(s[..n]);
      ScoresOfInsert(SortDesc(SCORE, s[..n]), s[n]);
      assert Scores(s)[..n] == Scores(s[..n]);
    }
  }

  function Pick(order: seq<string>, best: map<string, real>): (r: seq<real>)
    requires forall k :: k in order ==> k in best
    ensures |r| == |order|
  {
    if order == [] then [] else Pick(order[..|order| - 1], best) + [best[order[|order| - 1]]]
  }

  lemma {:induction false} PickWithout(order: seq<string>, best: map<string, real>, k: string)
    requires NoDup(order) && k in order && forall x :: x in order ==> x in best
    ensures multiset(Pick(order, best)) == multiset(Pick(Without(order, k), best)) + multiset{best[k]}
  {
    var n := |order| - 1;
    assert order == order[..n] + [order[n]];
    if order[n] == k {
      WithoutAbsent(order[..n], k);
    } else {
      PickWithout(order[..n], best, k);
      var front := Without(order[..n], k);
      assert (front + [order[n]])[..|front|] == front;
    }
  }

  /** The order in which chunks entered the table does not matter to the collection of scores. */
  lemma {:induction false} PickInAnyOrder(a: seq<string>, b: seq<string>, best: map<string, real>)
    requires NoDup(a) && NoDup(b) && SameElements(a, b) && forall x :: x in a ==> x in best
    ensures multiset(Pick(a, best)) == multiset(Pick(b, best))
    decreases |a|
  {
    if a == [] {
      forall x ensures x !in multiset(b) { assert x !in a; }
      assert multiset(b) == multiset{} && |multiset(b)| == |b|;
    } else {
      var n := |a| - 1;
      var k := a[n];
      assert a == a[..n] + [k];
      assert k !in a[..n];
      PickInAnyOrder(a[..n], Without(b, k), best);
      PickWithout(b, best, k);
    }
  }

  lemma {:induction false} PickIsScores(d: Table, order: seq<string>)
    requires d.Valid() && order <= d.order
    ensures forall k :: k in order ==> k in BestScores(d)
    ensures Pick(order, BestScores(d)) == Scores(d.Values())[..|order|]
  {
    assert forall k :: k in order ==> k in d.order;
    if order != [] {
      PickIsScores(d, order[..|order| - 1]);
    }
  }

  lemma ScoresDependOnTheTableOnly(p: seq<Hit>, q: seq<Hit>)
    requires BestScores(MergeHits(p)) == BestScores(MergeHits(q))
    ensures multiset(Scores(MergeHits(p).Values())) == multiset(Scores(MergeHits(q).Values()))
  {
    var dp, dq := MergeHits(p), MergeHits(q);
    PickIsScores(dp, dp.order);
    PickIsScores(dq, dq.order);
    forall k ensures k in dp.order <==> k in dq.order {
      assert k in BestScores(dp) <==> k in BestScores(dq);
    }
    PickInAnyOrder(dp.order, dq.order, BestScores(dp));
    assert Scores(dp.Values())[..|dp.order|] == Scores(dp.Values());
    assert Scores(dq.Values())[..|dq.order|] == Scores(dq.Values());
  }

  lemma RankedScoresAreConfluent(p: seq<Option<seq<Hit>>>, q: seq<Option<seq<Hit>>>)
    requires multiset(p) == multiset(q)
    ensures Scores(Ranked(Arrived(p))) == Scores(Ranked(Arrived(q)))
  {
    MergeIsConfluent(p, q);
    ScoresDependOnTheTableOnly(Arrived(p), Arrived(q));
    var a, b := MergeHits(Arrived(p)).Values(), MergeHits(Arrived(q)).Values();
    SortProperties(SELF, Scores(a));
    SortProperties(SELF, Scores(b));
    SortedUnique(SELF, SortDesc(SELF, Scores(a)), SortDesc(SELF, Scores(b)));
    ScoresOfSort(a);
    ScoresOfSort(b);
  }

  lemma ScoresOfTake(s: seq<Hit>, k: int)
    ensures Scores(Take(s, k)) == Take(Scores(s), k)
  {
  }

  /** The list of returned scores is the same for every completion order. */
  lemma TopScoresAreConfluent(p: seq<Option<seq<Hit>>>, q: seq<Option<seq<Hit>>>, topK: int)
    requires multiset(p) == multiset(q)
    ensures Scores(Take(Ranked(Arrived(p)), topK)) == Scores(Take(Ranked(Arrived(q)), topK))
  {
    RankedScoresAreConfluent(p, q);
    ScoresOfTake(Ranked(Arrived(p)), topK);
    ScoresOfTake(Ranked(Arrived(q)), topK);
  }

  lemma ValuesListTheTable(d: Table, hits: seq<Hit>)
    requires HoldsBest(d, hits) && d.Valid()
    ensures NoDup(d.Values())
    ensures forall h :: h in d.Values() <==> ChunkKey(h) in d.data && d.data[ChunkKey(h)] == h
  {
    var values := d.Values();
    forall i | 0 <= i < |values| ensures ChunkKey(values[i]) == d.order[i] && d.order[i] in d.data {
      assert d.order[i] in d.order;
    }
    forall h | ChunkKey(h) in d.data && d.data[ChunkKey(h)] == h ensures h in values {
      var i :| 0 <= i < |d.order| && d.order[i] == ChunkKey(h);
      assert values[i] == h;
    }
  }

  lemma SameMembers(a: seq<Hit>, b: seq<Hit>, h: Hit)
    requires multiset(a) == multiset(b)
    ensures h in a <==> h in b
  {
    assert h in a <==> h in multiset(a);
  }

  /** The ranking lists the best hit of every chunk, once each. */
  lemma RankedListsTheTable(hits: seq<Hit>)
    ensures var d, all := MergeHits(hits).data, Ranked(hits);
      && SortedDesc(SCORE, all) && NoDup(all)
      && forall h :: h in all <==> ChunkKey(h) in d && d[ChunkKey(h)] == h
  {
    var d := MergeHits(hits);
    MergeHoldsBest(hits);
    ValuesListTheTable(d, hits);
    SortProperties(SCORE, d.Values());
    NoDupIsMultiset(d.Values(), Ranked(hits));
    forall h ensures h in Ranked(hits) <==> h in d.Values() { SameMembers(Ranked(hits), d.Values(), h); }
  }

  /** What the ranking says of a single hit. */
  lemma RankedHolds(hits: seq<Hit>, h: Hit)
    ensures h in Ranked(hits) <==> ChunkKey(h) in MergeHits(hits).data && MergeHits(hits).data[ChunkKey(h)] == h
  {
    RankedListsTheTable(hits);
  }

  lemma RankedOnce(hits: seq<Hit>, i: nat, j: nat)
    requires i < |Ranked(hits)| && j < |Ranked(hits)| && i != j
    ensures Ranked(hits)[i] != Ranked(hits)[j]
  {
    RankedListsTheTable(hits);
  }

  lemma RankedHasDistinctKeys(hits: seq<Hit>, i: nat, j: nat)
    requires i < |Ranked(hits)| && j < |Ranked(hits)| && i != j
    ensures ChunkKey(Ranked(hits)[i]) != ChunkKey(Ranked(hits)[j])
  {
    RankedHolds(hits, Ranked(hits)[i]);
    RankedHolds(hits, Ranked(hits)[j]);
    RankedOnce(hits, i, j);
  }

  /** No key is returned twice. */
  lemma TopHasDistinctKeys(hits: seq<Hit>, topK: int, i: nat, j: nat)
    requires i < |Take(Ranked(hits), topK)| && j < |Take(Ranked(hits), topK)| && i != j
    ensures ChunkKey(Take(Ranked(hits), topK)[i]) != ChunkKey(Take(Ranked(hits), topK)[j])
  {
    RankedHasDistinctKeys(hits, i, j);
  }

  lemma RankedDescends(hits: seq<Hit>, i: nat, j: nat)
    requires i <= j < |Ranked(hits)|
    ensures Ranked(hits)[i].score >= Ranked(hits)[j].score
  {
    RankedListsTheTable(hits);
    assert SCORE(Ranked(hits)[i]) >= SCORE(Ranked(hits)[j]);
  }

  /** What the table says of a single hit. */
  lemma TableBeats(hits: seq<Hit>, h: Hit)
    requires h in hits
    ensures ChunkKey(h) in MergeHits(hits).data
    ensures var best := MergeHits(hits).data[ChunkKey(h)]; ChunkKey(best) == ChunkKey(h) && h.score <= best.score
  {
    MergeHoldsBest(hits);
  }

  lemma TableArrived(hits: seq<Hit>, k: string)
    requires k in MergeHits(hits).data
    ensures MergeHits(hits).data[k] in hits
  {
    MergeHoldsBest(hits);
  }

  /** Every returned hit arrived, and is the best of those under its key. */
  lemma TopHasBestOfItsKey(hits: seq<Hit>, topK: int, i: nat, h: Hit)
    requires i < |Take(Ranked(hits), topK)|
    ensures Take(Ranked(hits), topK)[i] in hits
    ensures h in hits && ChunkKey(h) == ChunkKey(Take(Ranked(hits), topK)[i]) ==>
      h.score <= Take(Ranked(hits), topK)[i].score
  {
    var r := Ranked(hits)[i];
    RankedHolds(hits, r);
    TableArrived(hits, ChunkKey(r));
    if h in hits { TableBeats(hits, h); }
  }

  /** Of different hits under one key at most one is returned. */
  lemma OneHitPerKey(hits: seq<Hit>, topK: int, x: Hit, y: Hit)
    requires x != y && ChunkKey(x) == ChunkKey(y)
    ensures x !in Take(Ranked(hits), topK) || y !in Take(Ranked(hits), topK)
  {
    RankedHolds(hits, x);
    RankedHolds(hits, y);
  }

  /** So different chunks without an index in one document, and chunks that agree in document id and index
      in two collections, push each other out. */
  lemma UnindexedChunksCollapse(a: Raw, b: Raw, threshold: real, hits: seq<Hit>, topK: int)
    requires Accept(a, threshold).Some? && Accept(b, threshold).Some? && Accept(a, threshold) != Accept(b, threshold)
    requires RequiredText(a.documentId) == RequiredText(b.documentId) && a.chunkIndex == b.chunkIndex
    ensures var top := Take(Ranked(hits), topK);
      Accept(a, threshold).value !in top || Accept(b, threshold).value !in top
  {
    OneHitPerKey(hits, topK, Accept(a, threshold).value, Accept(b, threshold).value);
  }

  /** And a colon in an index can make chunks of two documents collapse. */
  lemma ColonCollapses(hits: seq<Hit>, topK: int)
    ensures var a, b := Hit("a", "1:2", 1.0, "c", "f", "x"), Hit("a:1", "2", 1.0, "c", "g", "y");
      !SameChunk(a, b) && (a !in Take(Ranked(hits), topK) || b !in Take(Ranked(hits), topK))
  {
    var a, b := Hit("a", "1:2", 1.0, "c", "f", "x"), Hit("a:1", "2", 1.0, "c", "g", "y");
    assert b.documentId == a.documentId + ":" + "1" && a.chunkIndex == "1" + ":" + b.chunkIndex;
    assert a.filename != b.filename && |a.documentId| != |b.documentId|;
    StraddlesCollide(a, b);
    OneHitPerKey(hits, topK, a, b);
  }

  lemma TakeHolds<T>(s: seq<T>, k: int, j: nat)
    requires j < |s|
    ensures j < |Take(s, k)| ==> s[j] in Take(s, k)
  {
  }

  /** No chunk left out scores above a returned one. */
  lemma NoOmittedChunkIsBetter(hits: seq<Hit>, topK: int, i: nat, h: Hit)
    requires i < |Take(Ranked(hits), topK)| && h in hits
    requires forall r :: r in Take(Ranked(hits), topK) ==> ChunkKey(r) != ChunkKey(h)
    ensures h.score <= Take(Ranked(hits), topK)[i].score
  {
    var all, top := Ranked(hits), Take(Ranked(hits), topK);
    TableBeats(hits, h);
    var best := MergeHits(hits).data[ChunkKey(h)];
    RankedHolds(hits, best);
    var j :| 0 <= j < |all| && all[j] == best;
    TakeHolds(all, topK, j);
    RankedDescends(hits, i, j);
  }

  /** Which of two equally good hits is returned does depend on the order. */
  lemma TiesDependOnOrder()
    ensures var a, b := Hit("d", "0", 1.0, "c", "f", "x"), Hit("e", "0", 1.0, "c", "f", "x");
      Take(Ranked(Arrived([Some([a]), Some([b])])), 1) != Take(Ranked(Arrived([Some([b]), Some([a])])), 1)
  {
    var a, b := Hit("d", "0", 1.0, "c", "f", "x"), Hit("e", "0", 1.0, "c", "f", "x");
    assert ChunkKey(a)[0] != ChunkKey(b)[0];
    TwoTied(a, b);
    TwoTied(b, a);
  }

  lemma TwoTied(a: Hit, b: Hit)
    requires ChunkKey(a) != ChunkKey(b) && a.score == b.score
    ensures Take(Ranked(Arrived([Some([a]), Some([b])])), 1) == [a]
  {
    ArrivedPair(a, b);
    TablePair(a, b);
    assert SortDesc(SCORE, [a, b]) == [a, b] by {
      assert [a, b][..1] == [a] && [a][..0] == [];
      assert SortDesc(SCORE, [a]) == [a];
    }
  }

  lemma ArrivedPair(a: Hit, b: Hit)
    ensures Arrived([Some([a]), Some([b])]) == [a, b]
  {
    var jobs := [Some([a]), Some([b])];
    assert jobs[..1] == [Some([a])] && jobs[..1][..0] == [];
    assert Arrived(jobs[..1]) == [] + [a] == [a];
  }

  lemma TablePair(a: Hit, b: Hit)
    requires ChunkKey(a) != ChunkKey(b)
    ensures MergeHits([a, b]).Values() == [a, b]
  {
    MergeHitsSnoc([], a);
    MergeHitsSnoc([a], b);
    assert [] + [a] == [a] && [a] + [b] == [a, b];
    assert MergeHits([a, b]).order == [ChunkKey(a), ChunkKey(b)];
  }
}
