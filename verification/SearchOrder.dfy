/** When the returned hits, and not only their scores, are the same for every completion order. */
module SearchOrder {
  import opened PyText
  import opened PyCollections
  import opened SearchMerge

  /** The first element with the property, if there is one. */
  function First<T>(p: T -> bool, s: seq<T>): (r: Option<T>)
    ensures r.Some? ==> r.value in s && p(r.value)
    ensures r.None? ==> forall x :: x in s ==> !p(x)
  {
    if s == [] then None
    else
      var before, last := First(p, s[..|s| - 1]), s[|s| - 1];
      assert s == s[..|s| - 1] + [last];
      if before.Some? then before else if p(last) then Some(last) else None
  }

  lemma FirstSnoc<T>(p: T -> bool, s: seq<T>, x: T)
    ensures First(p, s + [x]) == if First(p, s).Some? then First(p, s) else if p(x) then Some(x) else None
  {
    assert (s + [x])[..|s|] == s;
  }

  lemma ConcatSnoc<T>(a: seq<T>, b: seq<T>)
    requires b != []
    ensures a + b == (a + b[..|b| - 1]) + [b[|b| - 1]] && b == b[..|b| - 1] + [b[|b| - 1]]
  {
  }

  lemma {:induction false} FirstConcat<T>(p: T -> bool, a: seq<T>, b: seq<T>)
    ensures First(p, a + b) == if First(p, a).Some? then First(p, a) else First(p, b)
  {
    if b == [] {
      assert a + b == a;
    } else {
      var front, last := b[..|b| - 1], b[|b| - 1];
      ConcatSnoc(a, b);
      FirstConcat(p, a, front);
      FirstSnoc(p, a + front, last);
      FirstSnoc(p, front, last);
    }
  }

  lemma {:induction false} SameFirst<T>(p: T -> bool, q: T -> bool, s: seq<T>)
    requires forall x :: x in s ==> p(x) == q(x)
    ensures First(p, s) == First(q, s)
  {
    if s != [] { SameFirst(p, q, s[..|s| - 1]); }
  }

  // ----- what stands under a key, and which key came first -----------------------------

  /** The hit arrived, and none under its key scores higher. */
  predicate BestHit(hits: seq<Hit>, h: Hit) {
    h in hits && forall x :: x in hits && ChunkKey(x) == ChunkKey(h) ==> x.score <= h.score
  }

  function BestUnder(hits: seq<Hit>, k: string): Hit -> bool {
    (h: Hit) => ChunkKey(h) == k && BestHit(hits, h)
  }

  function UnderEither(j: string, k: string): Hit -> bool {
    (h: Hit) => ChunkKey(h) == j || ChunkKey(h) == k
  }

  /** A hit under `j` comes before every hit under `k`. */
  predicate Leads(hits: seq<Hit>, j: string, k: string) {
    var f := First(UnderEither(j, k), hits);
    f.Some? && ChunkKey(f.value) == j
  }

  lemma OtherKeySnoc(hits: seq<Hit>, h: Hit, k: string)
    requires ChunkKey(h) != k
    ensures First(BestUnder(hits + [h], k), hits + [h]) == First(BestUnder(hits, k), hits)
  {
    var p, q := BestUnder(hits + [h], k), BestUnder(hits, k);
    forall x | x in hits ensures p(x) == q(x) {}
    SameFirst(p, q, hits);
    FirstSnoc(p, hits, h);
  }

  lemma NotBetterSnoc(hits: seq<Hit>, h: Hit, b: Hit)
    requires b in hits && ChunkKey(b) == ChunkKey(h) && h.score <= b.score
    ensures First(BestUnder(hits + [h], ChunkKey(h)), hits + [h]) == First(BestUnder(hits, ChunkKey(h)), hits)
  {
    var k := ChunkKey(h);
    var p, q := BestUnder(hits + [h], k), BestUnder(hits, k);
    forall x | x in hits ensures p(x) == q(x) {}
    SameFirst(p, q, hits);
    FirstSnoc(p, hits, h);
    if First(q, hits).None? { assert p(h) ==> p(b); }
  }

  lemma BetterSnoc(hits: seq<Hit>, h: Hit)
    requires forall x :: x in hits && ChunkKey(x) == ChunkKey(h) ==> x.score < h.score
    ensures First(BestUnder(hits + [h], ChunkKey(h)), hits + [h]) == Some(h)
  {
    var p := BestUnder(hits + [h], ChunkKey(h));
    FirstSnoc(p, hits, h);
    forall x | x in hits ensures !p(x) { assert h in hits + [h]; }
    assert p(h);
  }

  /** A hit that is best under its key stays in the table once it is there, so the first such stands in the end. */
  lemma {:induction false} TableIsFirstBest(hits: seq<Hit>, k: string)
    ensures var d := MergeHits(hits).data;
      First(BestUnder(hits, k), hits) == if k in d then Some(d[k]) else None
  {
    if hits != [] {
      var n := |hits| - 1;
      var front, h := hits[..n], hits[n];
      assert hits == front + [h];
      TableIsFirstBest(front, k);
      MergeHoldsBest(front);
      if ChunkKey(h) != k {
        OtherKeySnoc(front, h, k);
      } else if k in MergeHits(front).data && h.score <= MergeHits(front).data[k].score {
        NotBetterSnoc(front, h, MergeHits(front).data[k]);
      } else {
        BetterSnoc(front, h);
      }
    }
  }

  lemma LeadsSnoc(hits: seq<Hit>, h: Hit, j: string, k: string)
    requires Leads(hits, j, k)
    ensures Leads(hits + [h], j, k)
  {
    FirstSnoc(UnderEither(j, k), hits, h);
  }

  lemma LeadsNew(hits: seq<Hit>, j: string, k: string)
    requires (exists x :: x in hits && ChunkKey(x) == j) && forall x :: x in hits ==> ChunkKey(x) != k
    ensures Leads(hits, j, k)
  {
    var p := UnderEither(j, k);
    var x :| x in hits && ChunkKey(x) == j;
    assert p(x);
  }

  /** The table lists keys in the order in which they were hit first. */
  lemma {:induction false} OrderIsFirstHit(hits: seq<Hit>, i: nat, j: nat)
    requires i < j < |MergeHits(hits).order|
    ensures Leads(hits, MergeHits(hits).order[i], MergeHits(hits).order[j])
  {
    var n := |hits| - 1;
    var front, h := hits[..n], hits[n];
    var before, after := MergeHits(front).order, MergeHits(hits).order;
    assert hits == front + [h];
    assert after == before || after == before + [ChunkKey(h)];
    MergeHoldsBest(front);
    if j < |before| {
      OrderIsFirstHit(front, i, j);
    } else {
      assert before[i] in before && ChunkKey(h) !in MergeHits(front).data;
      assert MergeHits(front).data[before[i]] in front;
      LeadsNew(front, before[i], ChunkKey(h));
    }
    LeadsSnoc(front, h, after[i], after[j]);
  }

  // ----- the ranking, told without the table -------------------------------------------

  /** Descending, and for equal keys in the order of `r`. */
  predicate StableDesc<T(!new)>(key: T -> real, r: (T, T) -> bool, s: seq<T>) {
    forall i, j :: 0 <= i < j < |s| ==> key(s[i]) > key(s[j]) || (key(s[i]) == key(s[j]) && r(s[i], s[j]))
  }

  lemma {:induction false} InsertIsStable<T(!new)>(key: T -> real, r: (T, T) -> bool, s: seq<T>, x: T)
    requires StableDesc(key, r, s) && forall y :: y in s ==> r(y, x)
    ensures StableDesc(key, r, Insert(key, s, x))
  {
    if s != [] && key(s[|s| - 1]) < key(x) {
      var front, last := s[..|s| - 1], s[|s| - 1];
      InsertIsStable(key, r, front, x);
      InsertKeepsMembers(key, front, x);
      var inner := Insert(key, front, x);
      forall i | 0 <= i < |inner|
        ensures key(inner[i]) > key(last) || (key(inner[i]) == key(last) && r(inner[i], last))
      {
        MemberOfInsert(inner, front, x, inner[i]);
      }
    } else {
      forall i | 0 <= i < |s| ensures key(s[i]) >= key(x) && r(s[i], x) { assert s[i] in s; }
    }
  }

  lemma {:induction false} SortIsStable<T(!new)>(key: T -> real, r: (T, T) -> bool, s: seq<T>)
    requires Arranged(r, s)
    ensures StableDesc(key, r, SortDesc(key, s))
  {
    if s != [] {
      var n := |s| - 1;
      SortIsStable(key, r, s[..n]);
      SortProperties(key, s[..n]);
      forall y | y in SortDesc(key, s[..n]) ensures r(y, s[n]) {
        assert y in multiset(SortDesc(key, s[..n]));
        assert y in s[..n];
      }
      InsertIsStable(key, r, SortDesc(key, s[..n]), s[n]);
    }
  }

  function LeadsIn(hits: seq<Hit>): (Hit, Hit) -> bool { (x: Hit, y: Hit) => Leads(hits, ChunkKey(x), ChunkKey(y)) }

  /** The ranking is by score, and for equal scores by which key was hit first. */
  lemma RankedIsStable(hits: seq<Hit>)
    ensures StableDesc(SCORE, LeadsIn(hits), Ranked(hits))
  {
    var d := MergeHits(hits);
    MergeHoldsBest(hits);
    var values := d.Values();
    forall i, j | 0 <= i < j < |values| ensures LeadsIn(hits)(values[i], values[j]) {
      OrderIsFirstHit(hits, i, j);
      assert d.order[i] in d.order && d.order[j] in d.order;
    }
    SortIsStable(SCORE, LeadsIn(hits), values);
  }

  /** And it holds, under each key, the first hit that is best. */
  lemma RankedHoldsFirstBest(hits: seq<Hit>, h: Hit)
    ensures h in Ranked(hits) <==> First(BestUnder(hits, ChunkKey(h)), hits) == Some(h)
  {
    RankedHolds(hits, h);
    TableIsFirstBest(hits, ChunkKey(h));
  }

  lemma LeadsOneWay(hits: seq<Hit>, j: string, k: string)
    requires j != k && ((exists x :: x in hits && ChunkKey(x) == j) || exists x :: x in hits && ChunkKey(x) == k)
    ensures Leads(hits, j, k) <==> !Leads(hits, k, j)
  {
    var p, q := UnderEither(j, k), UnderEither(k, j);
    SameFirst(p, q, hits);
    var x :| x in hits && (ChunkKey(x) == j || ChunkKey(x) == k);
    assert p(x);
  }

  lemma RankedIsBest(hits: seq<Hit>, h: Hit)
    requires h in Ranked(hits)
    ensures BestHit(hits, h)
  {
    RankedHoldsFirstBest(hits, h);
  }

  predicate Arranged<T(!new)>(r: (T, T) -> bool, s: seq<T>) { forall i, j :: 0 <= i < j < |s| ==> r(s[i], s[j]) }

  ghost predicate OneWay<T(!new)>(r: (T, T) -> bool, s: seq<T>) {
    forall x, y :: x in s && y in s && x != y && r(x, y) ==> !r(y, x)
  }

  lemma LastOfBoth<T(!new)>(r: (T, T) -> bool, a: seq<T>, b: seq<T>)
    requires a != [] && multiset(a) == multiset(b) && Arranged(r, a) && Arranged(r, b) && OneWay(r, a)
    ensures b != [] && a[|a| - 1] == b[|b| - 1]
  {
    SameMultisetSameLength(a, b);
    var x, y := a[|a| - 1], b[|b| - 1];
    assert x in multiset(b) && y in multiset(a);
    var i :| 0 <= i < |a| && a[i] == y;
    var j :| 0 <= j < |b| && b[j] == x;
    assert x == y || (r(y, x) && r(x, y));
  }

  lemma FrontArranged<T(!new)>(r: (T, T) -> bool, s: seq<T>)
    requires s != [] && Arranged(r, s)
    ensures Arranged(r, s[..|s| - 1])
  {
  }

  lemma FrontOneWay<T(!new)>(r: (T, T) -> bool, s: seq<T>)
    requires s != [] && OneWay(r, s)
    ensures OneWay(r, s[..|s| - 1])
  {
    forall x | x in s[..|s| - 1] ensures x in s {}
  }

  lemma SameEnds<T>(a: seq<T>, b: seq<T>)
    requires a != [] && b != [] && a[..|a| - 1] == b[..|b| - 1] && a[|a| - 1] == b[|b| - 1]
    ensures a == b
  {
    assert a == a[..|a| - 1] + [a[|a| - 1]] && b == b[..|b| - 1] + [b[|b| - 1]];
  }

  /** Two arrangements of the same elements by one order are equal. */
  lemma {:induction false} ArrangedUnique<T(!new)>(r: (T, T) -> bool, a: seq<T>, b: seq<T>)
    requires multiset(a) == multiset(b) && Arranged(r, a) && Arranged(r, b) && OneWay(r, a)
    ensures a == b
    decreases |a|
  {
    SameMultisetSameLength(a, b);
    if a != [] {
      LastOfBoth(r, a, b);
      DropLast(a);
      DropLast(b);
      FrontArranged(r, a);
      FrontArranged(r, b);
      FrontOneWay(r, a);
      ArrangedUnique(r, a[..|a| - 1], b[..|b| - 1]);
      SameEnds(a, b);
    }
  }

  lemma {:induction false} NoDupSameElements<T(!new)>(a: seq<T>, b: seq<T>)
    requires NoDup(a) && NoDup(b) && SameElements(a, b)
    ensures multiset(a) == multiset(b)
  {
    forall x ensures multiset(a)[x] == multiset(b)[x] {
      Multiplicity(a, x);
      Multiplicity(b, x);
      assert x in multiset(a) <==> x in a;
      assert x in multiset(b) <==> x in b;
    }
  }

  // ----- in which job a question is decided --------------------------------------------

  /** The hits of a job; a job that raised has none. */
  function Hits(job: Option<seq<Hit>>): seq<Hit> { match job case Some(hits) => hits case None => [] }

  lemma ArrivedSnoc(jobs: seq<Option<seq<Hit>>>, job: Option<seq<Hit>>)
    ensures Arrived(jobs + [job]) == Arrived(jobs) + Hits(job)
  {
    assert (jobs + [job])[..|jobs|] == jobs;
  }

  lemma {:induction false} ArrivedConcat(p: seq<Option<seq<Hit>>>, q: seq<Option<seq<Hit>>>)
    ensures Arrived(p + q) == Arrived(p) + Arrived(q)
  {
    if q == [] {
      assert p + q == p;
    } else {
      var front, last := q[..|q| - 1], q[|q| - 1];
      ConcatSnoc(p, q);
      ArrivedConcat(p, front);
      ArrivedSnoc(p + front, last);
      ArrivedSnoc(front, last);
      ConcatAgain(Arrived(p), Arrived(front), Hits(last));
    }
  }

  lemma ConcatAgain<T>(a: seq<T>, b: seq<T>, c: seq<T>)
    ensures (a + b) + c == a + (b + c)
  {
  }

  /** The first hit of all with a property is the first in some job. */
  lemma {:induction false} FirstInSomeJob(p: Hit -> bool, jobs: seq<Option<seq<Hit>>>)
    requires First(p, Arrived(jobs)).Some?
    ensures exists i :: 0 <= i < |jobs| && First(p, Hits(jobs[i])) == First(p, Arrived(jobs))
  {
    if jobs != [] {
      var n := |jobs| - 1;
      FirstConcat(p, Arrived(jobs[..n]), Hits(jobs[n]));
      if First(p, Arrived(jobs[..n])).Some? {
        FirstInSomeJob(p, jobs[..n]);
        var i :| 0 <= i < n && First(p, Hits(jobs[..n][i])) == First(p, Arrived(jobs[..n]));
        assert jobs[..n][i] == jobs[i];
      }
    }
  }

  /** The jobs with the i-th one completing first. */
  function FirstDone(jobs: seq<Option<seq<Hit>>>, i: nat): seq<Option<seq<Hit>>>
    requires i < |jobs|
  {
    [jobs[i]] + (jobs[..i] + jobs[i + 1..])
  }

  lemma FirstDoneIsReordering(jobs: seq<Option<seq<Hit>>>, i: nat)
    requires i < |jobs|
    ensures multiset(FirstDone(jobs, i)) == multiset(jobs)
  {
    assert jobs == jobs[..i] + [jobs[i]] + jobs[i + 1..];
  }

  lemma FirstDoneDecides(p: Hit -> bool, jobs: seq<Option<seq<Hit>>>, i: nat)
    requires i < |jobs| && First(p, Hits(jobs[i])).Some?
    ensures First(p, Arrived(FirstDone(jobs, i))) == First(p, Hits(jobs[i]))
  {
    ArrivedConcat([jobs[i]], jobs[..i] + jobs[i + 1..]);
    assert [jobs[i]][..0] == [] && Arrived([jobs[i]]) == [] + Hits(jobs[i]) == Hits(jobs[i]);
    FirstConcat(p, Hits(jobs[i]), Arrived(jobs[..i] + jobs[i + 1..]));
  }

  // ----- when the order matters --------------------------------------------------------

  /** Two different hits that are best under their keys and score the same. */
  predicate Rivals(hits: seq<Hit>, x: Hit, y: Hit) {
    x != y && BestHit(hits, x) && BestHit(hits, y) && x.score == y.score
  }

  predicate Tied(hits: seq<Hit>) { exists x, y :: x in hits && y in hits && Rivals(hits, x, y) }

  /** Hits that come first settle the rivalry for `x`: under one key it is the first best hit, and of two
      keys its own comes first. */
  predicate Favours(all: seq<Hit>, hits: seq<Hit>, x: Hit, y: Hit) {
    if ChunkKey(x) == ChunkKey(y) then First(BestUnder(all, ChunkKey(x)), hits) == Some(x)
    else Leads(hits, ChunkKey(x), ChunkKey(y))
  }

  /** Favours looks at the first of these. */
  function Settling(all: seq<Hit>, x: Hit, y: Hit): Hit -> bool {
    if ChunkKey(x) == ChunkKey(y) then BestUnder(all, ChunkKey(x)) else UnderEither(ChunkKey(x), ChunkKey(y))
  }

  /** Two of the jobs would settle a rivalry differently. */
  ghost predicate OrderTied(jobs: seq<Option<seq<Hit>>>) {
    exists x, y, i, j :: SettledApart(jobs, x, y, i, j)
  }

  predicate SettledApart(jobs: seq<Option<seq<Hit>>>, x: Hit, y: Hit, i: nat, j: nat) {
    && i < |jobs| && j < |jobs| && Rivals(Arrived(jobs), x, y)
    && Favours(Arrived(jobs), Hits(jobs[i]), x, y) && Favours(Arrived(jobs), Hits(jobs[j]), y, x)
  }

  lemma SameBestHits(a: seq<Hit>, b: seq<Hit>, h: Hit)
    requires SameElements(a, b)
    ensures BestHit(a, h) <==> BestHit(b, h)
  {
  }

  lemma SameFavours(a: seq<Hit>, b: seq<Hit>, hits: seq<Hit>, x: Hit, y: Hit)
    requires SameElements(a, b)
    ensures Favours(a, hits, x, y) <==> Favours(b, hits, x, y)
  {
    var p, q := BestUnder(a, ChunkKey(x)), BestUnder(b, ChunkKey(x));
    forall h | h in hits ensures p(h) == q(h) { SameBestHits(a, b, h); }
    SameFirst(p, q, hits);
  }

  /** Who is favoured in the end was favoured by some job. */
  lemma FavouredBySomeJob(all: seq<Hit>, jobs: seq<Option<seq<Hit>>>, x: Hit, y: Hit)
    requires Favours(all, Arrived(jobs), x, y)
    ensures exists i :: 0 <= i < |jobs| && Favours(all, Hits(jobs[i]), x, y)
  {
    FirstInSomeJob(Settling(all, x, y), jobs);
  }

  /** A job of one order is a job of the other. */
  lemma JobElsewhere(p: seq<Option<seq<Hit>>>, q: seq<Option<seq<Hit>>>, i: nat) returns (j: nat)
    requires multiset(p) == multiset(q) && i < |p|
    ensures j < |q| && q[j] == p[i]
  {
    assert p[i] in multiset(q);
    j :| 0 <= j < |q| && q[j] == p[i];
  }

  /** Rivals that two orders settle differently are settled differently by two jobs. */
  lemma ApartByJobs(p: seq<Option<seq<Hit>>>, q: seq<Option<seq<Hit>>>, x: Hit, y: Hit)
    requires multiset(p) == multiset(q) && Rivals(Arrived(p), x, y)
    requires Favours(Arrived(p), Arrived(p), x, y) && Favours(Arrived(q), Arrived(q), y, x)
    ensures OrderTied(p)
  {
    ArrivedInAnyOrder(p, q);
    SameFavours(Arrived(p), Arrived(q), Arrived(q), y, x);
    FavouredBySomeJob(Arrived(p), p, x, y);
    FavouredBySomeJob(Arrived(p), q, y, x);
    var i: nat :| i < |p| && Favours(Arrived(p), Hits(p[i]), x, y);
    var m: nat :| m < |q| && Favours(Arrived(p), Hits(q[m]), y, x);
    var j := JobElsewhere(q, p, m);
    assert SettledApart(p, x, y, i, j);
  }

  lemma SettledApartElsewhere(p: seq<Option<seq<Hit>>>, q: seq<Option<seq<Hit>>>, x: Hit, y: Hit, i: nat, j: nat,
                              i': nat, j': nat)
    requires SameElements(Arrived(p), Arrived(q)) && SettledApart(p, x, y, i, j)
    requires i' < |q| && q[i'] == p[i] && j' < |q| && q[j'] == p[j]
    ensures SettledApart(q, x, y, i', j')
  {
    SameBestHits(Arrived(p), Arrived(q), x);
    SameBestHits(Arrived(p), Arrived(q), y);
    SameFavours(Arrived(p), Arrived(q), Hits(p[i]), x, y);
    SameFavours(Arrived(p), Arrived(q), Hits(p[j]), y, x);
  }

  lemma OrderTiedElsewhere(p: seq<Option<seq<Hit>>>, q: seq<Option<seq<Hit>>>)
    requires multiset(p) == multiset(q) && OrderTied(p)
    ensures OrderTied(q)
  {
    ArrivedInAnyOrder(p, q);
    var x, y, i, j :| SettledApart(p, x, y, i, j);
    var i' := JobElsewhere(p, q, i);
    var j' := JobElsewhere(p, q, j);
    SettledApartElsewhere(p, q, x, y, i, j, i', j');
    assert SettledApart(q, x, y, i', j');
  }

  // ----- without such jobs the order does not matter -----------------------------------

  lemma RankedElsewhere(p: seq<Option<seq<Hit>>>, q: seq<Option<seq<Hit>>>, h: Hit)
    requires multiset(p) == multiset(q) && !OrderTied(p) && h in Ranked(Arrived(p))
    ensures h in Ranked(Arrived(q))
  {
    var a, b, k := Arrived(p), Arrived(q), ChunkKey(h);
    ArrivedInAnyOrder(p, q);
    RankedHoldsFirstBest(a, h);
    SameBestHits(a, b, h);
    assert BestUnder(b, k)(h);
    var other := First(BestUnder(b, k), b).value;
    SameBestHits(a, b, other);
    RankedHoldsFirstBest(b, h);
    if other != h { ApartByJobs(p, q, h, other); }
  }

  lemma LeadsElsewhere(p: seq<Option<seq<Hit>>>, q: seq<Option<seq<Hit>>>, x: Hit, y: Hit)
    requires multiset(p) == multiset(q) && !OrderTied(p) && Rivals(Arrived(p), x, y) && ChunkKey(x) != ChunkKey(y)
    requires Leads(Arrived(p), ChunkKey(x), ChunkKey(y))
    ensures Leads(Arrived(q), ChunkKey(x), ChunkKey(y))
  {
    ArrivedInAnyOrder(p, q);
    assert x in Arrived(q);
    LeadsOneWay(Arrived(q), ChunkKey(x), ChunkKey(y));
    if Leads(Arrived(q), ChunkKey(y), ChunkKey(x)) { ApartByJobs(p, q, x, y); }
  }

  /** Before, in the ranking of `hits`. */
  function Before(hits: seq<Hit>): (Hit, Hit) -> bool {
    (x: Hit, y: Hit) => x.score > y.score || (x.score == y.score && Leads(hits, ChunkKey(x), ChunkKey(y)))
  }

  lemma RankedPair(hits: seq<Hit>, i: nat, j: nat)
    requires i < j < |Ranked(hits)|
    ensures var x, y := Ranked(hits)[i], Ranked(hits)[j];
      Before(hits)(x, y) && ChunkKey(x) != ChunkKey(y) && BestHit(hits, x) && BestHit(hits, y)
  {
    var x, y := Ranked(hits)[i], Ranked(hits)[j];
    RankedIsStable(hits);
    assert SCORE(x) > SCORE(y) || (SCORE(x) == SCORE(y) && LeadsIn(hits)(x, y));
    RankedHasDistinctKeys(hits, i, j);
    RankedIsBest(hits, x);
    RankedIsBest(hits, y);
  }

  lemma PairElsewhere(p: seq<Option<seq<Hit>>>, q: seq<Option<seq<Hit>>>, i: nat, j: nat)
    requires multiset(p) == multiset(q) && !OrderTied(p) && i < j < |Ranked(Arrived(p))|
    ensures Before(Arrived(q))(Ranked(Arrived(p))[i], Ranked(Arrived(p))[j])
  {
    var x, y := Ranked(Arrived(p))[i], Ranked(Arrived(p))[j];
    RankedPair(Arrived(p), i, j);
    if x.score == y.score { LeadsElsewhere(p, q, x, y); }
  }

  lemma BeforeOneWay(hits: seq<Hit>, x: Hit, y: Hit)
    requires x in Ranked(hits) && y in Ranked(hits) && x != y && Before(hits)(x, y)
    ensures !Before(hits)(y, x)
  {
    var i :| 0 <= i < |Ranked(hits)| && Ranked(hits)[i] == x;
    var j :| 0 <= j < |Ranked(hits)| && Ranked(hits)[j] == y;
    RankedHasDistinctKeys(hits, i, j);
    RankedIsBest(hits, x);
    LeadsOneWay(hits, ChunkKey(x), ChunkKey(y));
  }

  /** Unless two jobs would settle a rivalry differently, the ranking is the same for any two completion orders. */
  lemma RankedInAnyOrder(p: seq<Option<seq<Hit>>>, q: seq<Option<seq<Hit>>>)
    requires multiset(p) == multiset(q) && !OrderTied(p)
    ensures Ranked(Arrived(p)) == Ranked(Arrived(q))
  {
    var a, b := Ranked(Arrived(p)), Ranked(Arrived(q));
    var r := Before(Arrived(q));
    if OrderTied(q) { OrderTiedElsewhere(q, p); }
    forall h ensures h in a <==> h in b {
      if h in a { RankedElsewhere(p, q, h); }
      if h in b { RankedElsewhere(q, p, h); }
    }
    RankedListsTheTable(Arrived(p));
    RankedListsTheTable(Arrived(q));
    NoDupSameElements(a, b);
    forall i, j | 0 <= i < j < |a| ensures r(a[i], a[j]) { PairElsewhere(p, q, i, j); }
    forall i, j | 0 <= i < j < |b| ensures r(b[i], b[j]) { RankedPair(Arrived(q), i, j); }
    forall x, y | x in a && y in a && x != y && r(x, y) ensures !r(y, x) { BeforeOneWay(Arrived(q), x, y); }
    ArrangedUnique(r, a, b);
  }

  // ----- with such jobs it does --------------------------------------------------------

  lemma FavouredFirst(jobs: seq<Option<seq<Hit>>>, x: Hit, y: Hit, i: nat)
    requires i < |jobs| && Favours(Arrived(jobs), Hits(jobs[i]), x, y)
    ensures var p := Arrived(FirstDone(jobs, i)); Favours(p, p, x, y)
  {
    var all, p := Arrived(jobs), FirstDone(jobs, i);
    FirstDoneIsReordering(jobs, i);
    ArrivedInAnyOrder(jobs, p);
    FirstDoneDecides(Settling(all, x, y), jobs, i);
    SameFavours(all, Arrived(p), Arrived(p), x, y);
  }

  lemma RankedUnder(hits: seq<Hit>, x: Hit) returns (i: nat)
    requires BestHit(hits, x)
    ensures i < |Ranked(hits)|
    ensures ChunkKey(Ranked(hits)[i]) == ChunkKey(x) && Ranked(hits)[i].score == x.score
  {
    TableBeats(hits, x);
    var best := MergeHits(hits).data[ChunkKey(x)];
    TableArrived(hits, ChunkKey(x));
    RankedHolds(hits, best);
    i :| 0 <= i < |Ranked(hits)| && Ranked(hits)[i] == best;
  }

  lemma RankedAsFavoured(hits: seq<Hit>, x: Hit, y: Hit, i: nat, j: nat)
    requires Rivals(hits, x, y) && ChunkKey(x) != ChunkKey(y) && Leads(hits, ChunkKey(x), ChunkKey(y))
    requires i < |Ranked(hits)| && ChunkKey(Ranked(hits)[i]) == ChunkKey(x) && Ranked(hits)[i].score == x.score
    requires j < |Ranked(hits)| && ChunkKey(Ranked(hits)[j]) == ChunkKey(y) && Ranked(hits)[j].score == y.score
    ensures i < j
  {
    LeadsOneWay(hits, ChunkKey(x), ChunkKey(y));
    if j < i { RankedPair(hits, j, i); }
  }

  lemma FavouredApart(a: seq<Hit>, b: seq<Hit>, x: Hit, y: Hit)
    requires Rivals(a, x, y) && Rivals(b, y, x) && Favours(a, a, x, y) && Favours(b, b, y, x)
    ensures Ranked(a) != Ranked(b)
  {
    if ChunkKey(x) == ChunkKey(y) {
      RankedHoldsFirstBest(a, x);
      RankedHoldsFirstBest(b, x);
    } else {
      var i := RankedUnder(a, x);
      var j := RankedUnder(a, y);
      RankedAsFavoured(a, x, y, i, j);
      if Ranked(a) == Ranked(b) { RankedAsFavoured(b, y, x, j, i); }
    }
  }

  lemma TiedOrdersDiffer(jobs: seq<Option<seq<Hit>>>, x: Hit, y: Hit, i: nat, j: nat)
    requires SettledApart(jobs, x, y, i, j)
    ensures multiset(FirstDone(jobs, i)) == multiset(jobs) == multiset(FirstDone(jobs, j))
    ensures Ranked(Arrived(FirstDone(jobs, i))) != Ranked(Arrived(FirstDone(jobs, j)))
  {
    var a, b := Arrived(FirstDone(jobs, i)), Arrived(FirstDone(jobs, j));
    FirstDoneIsReordering(jobs, i);
    FirstDoneIsReordering(jobs, j);
    ArrivedInAnyOrder(jobs, FirstDone(jobs, i));
    ArrivedInAnyOrder(jobs, FirstDone(jobs, j));
    SameBestHits(Arrived(jobs), a, x);
    SameBestHits(Arrived(jobs), a, y);
    SameBestHits(Arrived(jobs), b, x);
    SameBestHits(Arrived(jobs), b, y);
    FavouredFirst(jobs, x, y, i);
    FavouredFirst(jobs, y, x, j);
    FavouredApart(a, b, x, y);
  }

  /** Any two completion orders of the jobs return the same hits, however many are asked for. */
  ghost predicate OrderDoesNotMatter(jobs: seq<Option<seq<Hit>>>) {
    forall p, q, topK :: multiset(p) == multiset(jobs) == multiset(q) ==> SameTop(p, q, topK)
  }

  predicate SameTop(p: seq<Option<seq<Hit>>>, q: seq<Option<seq<Hit>>>, topK: int) {
    Take(Ranked(Arrived(p)), topK) == Take(Ranked(Arrived(q)), topK)
  }

  lemma AllOfThem<T>(a: seq<T>, b: seq<T>)
    requires a != b
    ensures Take(a, |a| + |b|) != Take(b, |a| + |b|)
  {
  }

  lemma DifferentRankingsMatter(jobs: seq<Option<seq<Hit>>>, p: seq<Option<seq<Hit>>>, q: seq<Option<seq<Hit>>>,
                                a: seq<Hit>, b: seq<Hit>)
    requires multiset(p) == multiset(jobs) == multiset(q)
    requires a == Ranked(Arrived(p)) && b == Ranked(Arrived(q)) && a != b
    ensures !OrderDoesNotMatter(jobs)
  {
    AllOfThem(a, b);
    assert !SameTop(p, q, |a| + |b|);
  }

  lemma TiedMatters(jobs: seq<Option<seq<Hit>>>, x: Hit, y: Hit, i: nat, j: nat)
    requires SettledApart(jobs, x, y, i, j)
    ensures !OrderDoesNotMatter(jobs)
  {
    var p, q := FirstDone(jobs, i), FirstDone(jobs, j);
    TiedOrdersDiffer(jobs, x, y, i, j);
    DifferentRankingsMatter(jobs, p, q, Ranked(Arrived(p)), Ranked(Arrived(q)));
  }

  lemma NotTiedSameTop(jobs: seq<Option<seq<Hit>>>, p: seq<Option<seq<Hit>>>, q: seq<Option<seq<Hit>>>, topK: int)
    requires !OrderTied(jobs) && multiset(p) == multiset(jobs) == multiset(q)
    ensures SameTop(p, q, topK)
  {
    RankedInAnyOrder(jobs, p);
    RankedInAnyOrder(jobs, q);
  }

  /** What search returns is the same for every completion order if and only if no two jobs would settle
      the rivalry of two equally good best hits differently. */
  lemma OrderMattersIffTied(jobs: seq<Option<seq<Hit>>>)
    ensures OrderDoesNotMatter(jobs) <==> !OrderTied(jobs)
  {
    if OrderTied(jobs) {
      var x, y, i, j :| SettledApart(jobs, x, y, i, j);
      TiedMatters(jobs, x, y, i, j);
    } else {
      forall p, q, topK | multiset(p) == multiset(jobs) == multiset(q) ensures SameTop(p, q, topK) {
        NotTiedSameTop(jobs, p, q, topK);
      }
    }
  }

  // ----- the hits returned -------------------------------------------------------------

  lemma OrderTiedIsTied(jobs: seq<Option<seq<Hit>>>)
    requires OrderTied(jobs)
    ensures Tied(Arrived(jobs))
  {
    var x, y, i, j :| SettledApart(jobs, x, y, i, j);
    assert Rivals(Arrived(jobs), x, y);
  }

  /** Without ties the returned hits are the same for every completion order and every number asked for. */
  lemma TopInAnyOrder(p: seq<Option<seq<Hit>>>, q: seq<Option<seq<Hit>>>, topK: int)
    requires multiset(p) == multiset(q) && !Tied(Arrived(p))
    ensures Take(Ranked(Arrived(p)), topK) == Take(Ranked(Arrived(q)), topK)
  {
    if OrderTied(p) { OrderTiedIsTied(p); }
    RankedInAnyOrder(p, q);
  }

  lemma OneHitFavours(all: seq<Hit>, x: Hit, y: Hit)
    requires Rivals(all, x, y)
    ensures Favours(all, [x], x, y)
  {
    var p, q := BestUnder(all, ChunkKey(x)), UnderEither(ChunkKey(x), ChunkKey(y));
    assert [] + [x] == [x];
    FirstSnoc(p, [], x);
    FirstSnoc(q, [], x);
  }

  lemma OwnJob(jobs: seq<Option<seq<Hit>>>, x: Hit) returns (i: nat)
    requires x in Arrived(jobs) && forall j :: 0 <= j < |jobs| ==> |Hits(jobs[j])| <= 1
    ensures i < |jobs| && Hits(jobs[i]) == [x]
  {
    ArrivedElements(jobs, x);
    i :| 0 <= i < |jobs| && jobs[i].Some? && x in jobs[i].value;
    assert |Hits(jobs[i])| <= 1;
  }

  /** When every job brings one hit at most, the order does not matter if and only if there are no ties;
      a job with several hits can bring both rivals, and then settles them itself. */
  lemma OneHitOrderMattersIffTied(jobs: seq<Option<seq<Hit>>>)
    requires forall j :: 0 <= j < |jobs| ==> |Hits(jobs[j])| <= 1
    ensures OrderDoesNotMatter(jobs) <==> !Tied(Arrived(jobs))
  {
    OrderMattersIffTied(jobs);
    if OrderTied(jobs) { OrderTiedIsTied(jobs); }
    if x, y :| x in Arrived(jobs) && y in Arrived(jobs) && Rivals(Arrived(jobs), x, y) {
      var i := OwnJob(jobs, x);
      var j := OwnJob(jobs, y);
      OneHitFavours(Arrived(jobs), x, y);
      OneHitFavours(Arrived(jobs), y, x);
      assert SettledApart(jobs, x, y, i, j);
    }
  }
}
