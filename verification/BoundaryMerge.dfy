/** Merging syntax-tree boundaries into chunks: the last chunk is replaced in place while it
    still fits, and oversized segments go through the sliding window. Positions are positions of the
    text, whatever the boundaries mean by them; sizes are measured by any function of the text. */
module BoundaryMerge {
  import opened PyText
  import opened SlidingWindow

  /** The size limit of a chunk and the overlap, of new chunks and of sliding windows alike, and how long
      a text is in bytes. */
  datatype Limits = Limits(max: nat, overlap: nat, bytes: string -> nat) {
    predicate Valid() { overlap < max }
  }

  /** The range a chunk holds, and the start recorded in its metadata, if any. */
  datatype Piece = Piece(span: Span, byteStart: Option<nat>)

  datatype State = State(pieces: seq<Piece>, at: nat)

  function Last(pieces: seq<Piece>): Piece requires pieces != [] { pieces[|pieces| - 1] }

  function Front(pieces: seq<Piece>): seq<Piece> requires pieces != [] { pieces[..|pieces| - 1] }

  function RecordedStart(p: Piece): nat {
    match p.byteStart case Some(b) => b case None => 0
  }

  /** Sliding-window spans of a segment that starts at `at`, as pieces of the whole text. */
  function Shifted(spans: seq<Span>, at: nat): (ps: seq<Piece>)
    ensures |ps| == |spans|
    ensures forall i :: 0 <= i < |ps| ==> ps[i] == Piece(Span(at + spans[i].lo, at + spans[i].hi), None)
  {
    if spans == [] then []
    else
      var last := spans[|spans| - 1];
      Shifted(spans[..|spans| - 1], at) + [Piece(Span(at + last.lo, at + last.hi), None)]
  }

  function Oversized(content: string, lim: Limits, at: nat, symEnd: nat): seq<Piece>
    requires lim.Valid()
  {
    Shifted(WindowSpans(Slice(content, at, symEnd), 0, lim.max, lim.overlap), at)
  }

  function OverlapStart(lim: Limits, pieces: seq<Piece>, at: nat): (r: nat)
    ensures r <= at
  {
    if pieces == [] then at else if at < lim.overlap then 0 else at - lim.overlap
  }

  /** What one call of the append-or-extend helper does to the pieces. */
  function AppendOrExtend(content: string, lim: Limits, pieces: seq<Piece>, at: nat, symEnd: nat): seq<Piece> {
    if pieces != [] && lim.bytes(Slice(content, RecordedStart(Last(pieces)), symEnd)) <= lim.max then
      var start := RecordedStart(Last(pieces));
      Front(pieces) + [Piece(Span(start, symEnd), Some(start))]
    else
      var start := OverlapStart(lim, pieces, at);
      if Blank(Slice(content, start, symEnd)) then pieces
      else pieces + [Piece(Span(start, symEnd), Some(start))]
  }

  function Step(content: string, lim: Limits, st: State, symEnd: nat): State
    requires lim.Valid()
  {
    if lim.bytes(Slice(content, st.at, symEnd)) > lim.max && st.pieces != [] then
      State(st.pieces + Oversized(content, lim, st.at, symEnd), symEnd)
    else
      State(AppendOrExtend(content, lim, st.pieces, st.at, symEnd), symEnd)
  }

  function Scan(content: string, lim: Limits, boundaries: seq<(nat, nat)>): State
    requires lim.Valid()
  {
    if boundaries == [] then State([], 0)
    else
      var n := |boundaries| - 1;
      Step(content, lim, Scan(content, lim, boundaries[..n]), boundaries[n].1)
  }

  /** The pieces of the whole run: the scan, then what lies after the last boundary. */
  function Merged(content: string, lim: Limits, boundaries: seq<(nat, nat)>): seq<Piece>
    requires lim.Valid()
  {
    var st := Scan(content, lim, boundaries);
    if st.at < |content| && !Blank(content[st.at..]) then st.pieces + [Piece(Span(st.at, |content|), None)]
    else st.pieces
  }

  // ----- the chunk list itself ---------------------------------------------------------

  function AsChunk(content: string, p: Piece, index: nat): Chunk {
    Chunk(index, Slice(content, p.span.lo, p.span.hi), p.byteStart)
  }

  /** `chunks` are the slices of `content` that `pieces` name, chunk i carrying index i. */
  predicate Shows(content: string, chunks: seq<Chunk>, pieces: seq<Piece>) {
    |chunks| == |pieces| && forall i :: 0 <= i < |chunks| ==> chunks[i] == AsChunk(content, pieces[i], i)
  }

  method MergeHandleOversizedSegment(content: string, lim: Limits, at: nat, symEnd: nat, chunkIndex: nat)
    returns (subChunks: seq<Chunk>, newIndex: nat)
    requires lim.Valid()
    ensures newIndex == chunkIndex + |subChunks|
    ensures |subChunks| == |Oversized(content, lim, at, symEnd)|
    ensures forall i :: 0 <= i < |subChunks| ==>
      subChunks[i] == AsChunk(content, Oversized(content, lim, at, symEnd)[i], chunkIndex + i)
  {
    var segment := Slice(content, at, symEnd);
    subChunks := SlidingWindowChunk(segment, lim.max, lim.overlap, chunkIndex);
    newIndex := chunkIndex + |subChunks|;
    forall i | 0 <= i < |subChunks|
      ensures subChunks[i] == AsChunk(content, Oversized(content, lim, at, symEnd)[i], chunkIndex + i)
    {
      OversizedNth(content, lim, at, symEnd, i);
    }
  }

  lemma NthWindow(content: string, size: nat, overlap: nat, i: nat)
    requires overlap < size && i < |WindowSpans(content, 0, size, overlap)|
    ensures var s := WindowSpans(content, 0, size, overlap)[i];
      s.lo < s.hi <= |content| && s.hi - s.lo <= size && !Blank(content[s.lo..s.hi])
  {
    SpansAreWindows(content, 0, size, overlap);
    assert WindowSpans(content, 0, size, overlap)[i] in WindowSpans(content, 0, size, overlap);
  }

  lemma OversizedNth(content: string, lim: Limits, at: nat, symEnd: nat, i: nat)
    requires lim.Valid() && i < |Oversized(content, lim, at, symEnd)|
    ensures var segment, p := Slice(content, at, symEnd), Oversized(content, lim, at, symEnd)[i];
      var s := WindowSpans(segment, 0, lim.max, lim.overlap)[i];
      && p == Piece(Span(at + s.lo, at + s.hi), None)
      && Slice(content, p.span.lo, p.span.hi) == Slice(segment, s.lo, s.hi)
  {
    var segment := Slice(content, at, symEnd);
    var spans := WindowSpans(segment, 0, lim.max, lim.overlap);
    assert Shifted(spans, at)[i] == Piece(Span(at + spans[i].lo, at + spans[i].hi), None);
    assert spans[i].lo <= spans[i].hi <= |segment| by { NthWindow(segment, lim.max, lim.overlap, i); }
    SliceOfSlice(content, at, symEnd, spans[i].lo, spans[i].hi);
  }

  lemma SubSub<T>(s: seq<T>, at: nat, e: nat, lo: nat, hi: nat)
    requires lo <= hi <= e - at && at <= e <= |s|
    ensures s[at..e][lo..hi] == s[at + lo..at + hi]
  {
    var a, b := s[at..e][lo..hi], s[at + lo..at + hi];
    forall i | 0 <= i < hi - lo ensures a[i] == b[i] {
      assert a[i] == s[at..e][lo + i] == s[at + (lo + i)];
    }
  }

  lemma SliceOfSlice(content: string, at: nat, end: nat, lo: nat, hi: nat)
    requires lo <= hi <= |Slice(content, at, end)|
    ensures Slice(Slice(content, at, end), lo, hi) == Slice(content, at + lo, at + hi)
  {
    if lo < hi {
      var e := if end < |content| then end else |content|;
      SubSub(content, at, e, lo, hi);
    }
  }

  method MergeAppendOrExtendChunk(content: string, lim: Limits, chunks: seq<Chunk>, chunkIndex: nat,
                                  lastStart: nat, currentStart: nat, symEnd: nat, ghost pieces: seq<Piece>)
    returns (newChunks: seq<Chunk>, newIndex: nat)
    requires Shows(content, chunks, pieces) && chunkIndex == |chunks|
    requires pieces != [] ==> lastStart == RecordedStart(Last(pieces))
    ensures Shows(content, newChunks, AppendOrExtend(content, lim, pieces, currentStart, symEnd))
    ensures newIndex == |newChunks|
  {
    newChunks, newIndex := chunks, chunkIndex;
    if |chunks| > 0 {
      var merged := Slice(content, lastStart, symEnd);
      if lim.bytes(merged) <= lim.max {
        var last := chunks[|chunks| - 1];
        newChunks := chunks[|chunks| - 1 := Chunk(last.index, merged, Some(lastStart))];
        return;
      }
    }
    var overlapStart := if chunkIndex > 0 then (if currentStart < lim.overlap then 0 else currentStart - lim.overlap)
                        else currentStart;
    var chunkText := Slice(content, overlapStart, symEnd);
    if !Blank(chunkText) {
      newChunks := chunks + [Chunk(chunkIndex, chunkText, Some(overlapStart))];
      newIndex := chunkIndex + 1;
    }
  }

  lemma ScanStep(content: string, lim: Limits, boundaries: seq<(nat, nat)>, i: nat)
    requires lim.Valid() && i < |boundaries|
    ensures Scan(content, lim, boundaries[..i + 1])
         == Step(content, lim, Scan(content, lim, boundaries[..i]), boundaries[i].1)
  {
    assert boundaries[..i + 1][..i] == boundaries[..i];
  }

  lemma ShowsAppend(content: string, chunks: seq<Chunk>, pieces: seq<Piece>, subs: seq<Chunk>, more: seq<Piece>)
    requires Shows(content, chunks, pieces) && |subs| == |more|
    requires forall i :: 0 <= i < |subs| ==> subs[i] == AsChunk(content, more[i], |chunks| + i)
    ensures Shows(content, chunks + subs, pieces + more)
  {
  }

  /** One turn of the loop: `st` is what the loop has built, `symEnd` the end of the next boundary. */
  method MergeOne(content: string, lim: Limits, chunks: seq<Chunk>, chunkIndex: nat, currentStart: nat,
                  symEnd: nat, ghost st: State)
    returns (newChunks: seq<Chunk>, newIndex: nat)
    requires lim.Valid() && Shows(content, chunks, st.pieces) && chunkIndex == |chunks| && currentStart == st.at
    ensures Shows(content, newChunks, Step(content, lim, st, symEnd).pieces)
    ensures newIndex == |newChunks|
  {
    if lim.bytes(Slice(content, currentStart, symEnd)) > lim.max && |chunks| > 0 {
      var subChunks;
      subChunks, newIndex := MergeHandleOversizedSegment(content, lim, currentStart, symEnd, chunkIndex);
      newChunks := chunks + subChunks;
      ShowsAppend(content, chunks, st.pieces, subChunks, Oversized(content, lim, currentStart, symEnd));
    } else {
      var lastStart := if |chunks| == 0 then 0
                       else match chunks[|chunks| - 1].byteStart case Some(b) => b case None => 0;
      newChunks, newIndex :=
        MergeAppendOrExtendChunk(content, lim, chunks, chunkIndex, lastStart, currentStart, symEnd, st.pieces);
    }
  }

  method MergeBoundariesIntoChunks(content: string, lim: Limits, boundaries: seq<(nat, nat)>)
    returns (chunks: seq<Chunk>)
    requires lim.Valid()
    ensures Shows(content, chunks, Merged(content, lim, boundaries))
  {
    chunks := [];
    var chunkIndex, currentStart := 0, 0;
    for i := 0 to |boundaries|
      invariant chunkIndex == |chunks|
      invariant currentStart == Scan(content, lim, boundaries[..i]).at
      invariant Shows(content, chunks, Scan(content, lim, boundaries[..i]).pieces)
    {
      ScanStep(content, lim, boundaries, i);
      var symEnd := boundaries[i].1;
      chunks, chunkIndex := MergeOne(content, lim, chunks, chunkIndex, currentStart, symEnd,
                                     Scan(content, lim, boundaries[..i]));
      currentStart := symEnd;
    }
    assert boundaries[..|boundaries|] == boundaries;
    if currentStart < |content| {
      var trailing := content[currentStart..];
      if !Blank(trailing) {
        chunks := chunks + [Chunk(chunkIndex, trailing, None)];
      }
    }
  }

  // ----- no text is lost ---------------------------------------------------------------

  predicate Covered(p: int, pieces: seq<Piece>) {
    exists i :: 0 <= i < |pieces| && Within(p, pieces[i].span)
  }

  /** Every position before `bound` that is not white space lies in one of the pieces. */
  predicate CoveredUpTo(content: string, pieces: seq<Piece>, bound: nat) {
    forall p :: 0 <= p < bound && p < |content| && !IsSpace(content[p]) ==> Covered(p, pieces)
  }

  /** What the scan keeps: everything behind it is covered, and replacing the last piece from
      its recorded start on cannot uncover anything, since the others cover all before that. */
  predicate Safe(content: string, st: State) {
    && CoveredUpTo(content, st.pieces, st.at)
    && (st.pieces != [] ==> CoveredUpTo(content, Front(st.pieces), RecordedStart(Last(st.pieces))))
  }

  lemma CoveredMonotone(p: int, a: seq<Piece>, b: seq<Piece>)
    ensures Covered(p, a) ==> Covered(p, a + b)
    ensures Covered(p, b) ==> Covered(p, a + b)
  {
    if Covered(p, a) {
      var i :| 0 <= i < |a| && Within(p, a[i].span);
      assert (a + b)[i] == a[i];
    }
    if Covered(p, b) {
      var i :| 0 <= i < |b| && Within(p, b[i].span);
      assert (a + b)[|a| + i] == b[i];
    }
  }

  lemma CoveredByLast(p: int, a: seq<Piece>, last: Piece)
    ensures Covered(p, a) || Within(p, last.span) ==> Covered(p, a + [last])
  {
    CoveredMonotone(p, a, [last]);
    assert [last][0] == last;
  }

  lemma OversizedCovers(content: string, lim: Limits, at: nat, symEnd: nat, p: nat)
    requires lim.Valid() && at <= p < symEnd && p < |content| && !IsSpace(content[p])
    ensures Covered(p, Oversized(content, lim, at, symEnd))
  {
    var segment := Slice(content, at, symEnd);
    assert segment[p - at] == content[p];
    WindowsCover(segment, 0, lim.max, lim.overlap, p - at);
    var spans := WindowSpans(segment, 0, lim.max, lim.overlap);
    var s :| s in spans && Within(p - at, s);
    var i :| 0 <= i < |spans| && spans[i] == s;
    assert Within(p, Oversized(content, lim, at, symEnd)[i].span);
  }

  lemma OversizedIsSafe(content: string, lim: Limits, st: State, symEnd: nat)
    requires lim.Valid() && Safe(content, st) && st.pieces != []
    ensures Safe(content, State(st.pieces + Oversized(content, lim, st.at, symEnd), symEnd))
  {
    var more := Oversized(content, lim, st.at, symEnd);
    var all := st.pieces + more;
    forall p | 0 <= p < symEnd && p < |content| && !IsSpace(content[p])
      ensures Covered(p, all)
    {
      CoveredMonotone(p, st.pieces, more);
      if p >= st.at { OversizedCovers(content, lim, st.at, symEnd, p); }
    }
    if more == [] {
      assert all == st.pieces;
    } else {
      assert Last(all) == Last(more) && RecordedStart(Last(more)) == 0;
    }
  }

  lemma ExtendIsSafe(content: string, st: State, symEnd: nat, after: seq<Piece>)
    requires Safe(content, st) && st.pieces != []
    requires var start := RecordedStart(Last(st.pieces));
      after == Front(st.pieces) + [Piece(Span(start, symEnd), Some(start))]
    ensures Safe(content, State(after, symEnd))
  {
    forall p | 0 <= p < symEnd && p < |content| && !IsSpace(content[p]) ensures Covered(p, after) {
      CoveredByLast(p, Front(st.pieces), Last(after));
    }
    assert Front(after) == Front(st.pieces);
  }

  lemma AppendIsSafe(content: string, st: State, start: nat, symEnd: nat, piece: Piece)
    requires Safe(content, st) && start <= st.at && piece == Piece(Span(start, symEnd), Some(start))
    ensures Safe(content, State(st.pieces + [piece], symEnd))
  {
    forall p | 0 <= p < symEnd && p < |content| && !IsSpace(content[p]) ensures Covered(p, st.pieces + [piece]) {
      CoveredByLast(p, st.pieces, piece);
    }
    assert Front(st.pieces + [piece]) == st.pieces;
  }

  lemma DropBlankIsSafe(content: string, st: State, start: nat, symEnd: nat)
    requires Safe(content, st) && start <= st.at && Blank(Slice(content, start, symEnd))
    ensures Safe(content, State(st.pieces, symEnd))
  {
    var text := Slice(content, start, symEnd);
    forall p | 0 <= p < symEnd && p < |content| && !IsSpace(content[p]) ensures p < st.at {
      if p >= start { assert text[p - start] == content[p]; }
    }
  }

  /** The heart of the argument: neither extending the last piece nor dropping a blank one uncovers anything. */
  lemma AppendOrExtendIsSafe(content: string, lim: Limits, st: State, symEnd: nat)
    requires Safe(content, st)
    ensures Safe(content, State(AppendOrExtend(content, lim, st.pieces, st.at, symEnd), symEnd))
  {
    if st.pieces != [] && lim.bytes(Slice(content, RecordedStart(Last(st.pieces)), symEnd)) <= lim.max {
      ExtendIsSafe(content, st, symEnd, AppendOrExtend(content, lim, st.pieces, st.at, symEnd));
    } else {
      var start := OverlapStart(lim, st.pieces, st.at);
      if Blank(Slice(content, start, symEnd)) {
        DropBlankIsSafe(content, st, start, symEnd);
      } else {
        AppendIsSafe(content, st, start, symEnd, Piece(Span(start, symEnd), Some(start)));
      }
    }
  }

  lemma {:induction false} ScanIsSafe(content: string, lim: Limits, boundaries: seq<(nat, nat)>)
    requires lim.Valid()
    ensures Safe(content, Scan(content, lim, boundaries))
  {
    if boundaries != [] {
      var n := |boundaries| - 1;
      ScanIsSafe(content, lim, boundaries[..n]);
      var st := Scan(content, lim, boundaries[..n]);
      if lim.bytes(Slice(content, st.at, boundaries[n].1)) > lim.max && st.pieces != [] {
        OversizedIsSafe(content, lim, st, boundaries[n].1);
      } else {
        AppendOrExtendIsSafe(content, lim, st, boundaries[n].1);
      }
    }
  }

  /** Boundary merging loses nothing, whatever the order of the boundaries. */
  lemma MergingLosesNothing(content: string, lim: Limits, boundaries: seq<(nat, nat)>, p: nat)
    requires lim.Valid() && p < |content| && !IsSpace(content[p])
    ensures Covered(p, Merged(content, lim, boundaries))
  {
    ScanIsSafe(content, lim, boundaries);
    var st := Scan(content, lim, boundaries);
    if st.at <= p {
      assert content[st.at..][p - st.at] == content[p];
      CoveredByLast(p, st.pieces, Piece(Span(st.at, |content|), None));
    } else {
      CoveredMonotone(p, st.pieces, [Piece(Span(st.at, |content|), None)]);
    }
  }

  // ----- boundaries in order: chunks only grow -----------------------------------------

  predicate Ascending(boundaries: seq<(nat, nat)>) {
    forall i, j :: 0 <= i <= j < |boundaries| ==> boundaries[i].1 <= boundaries[j].1
  }

  /** `after` keeps every piece of `before` in place, possibly longer; sliding-window pieces stay as they are. */
  predicate Extends(before: seq<Piece>, after: seq<Piece>) {
    && |before| <= |after|
    && forall i :: 0 <= i < |before| ==>
         && before[i].span.lo == after[i].span.lo && before[i].span.hi <= after[i].span.hi
         && (before[i].byteStart == None ==> after[i] == before[i])
  }

  predicate NoneBlank(content: string, pieces: seq<Piece>) {
    forall i :: 0 <= i < |pieces| ==> !Blank(Slice(content, pieces[i].span.lo, pieces[i].span.hi))
  }

  /** Why a missing start is harmless: a piece without one exists only past the size limit. */
  predicate InOrder(content: string, lim: Limits, st: State) {
    && NoneBlank(content, st.pieces)
    && (st.pieces != [] ==>
          match Last(st.pieces).byteStart
          case Some(b) => b == Last(st.pieces).span.lo && Last(st.pieces).span.hi <= st.at
          case None => lim.bytes(Slice(content, 0, st.at)) > lim.max)
  }

  lemma LongerStaysNonBlank(content: string, lo: nat, hi: nat, hi': nat)
    requires hi <= hi' && !Blank(Slice(content, lo, hi))
    ensures !Blank(Slice(content, lo, hi'))
  {
    var i :| 0 <= i < |Slice(content, lo, hi)| && !IsSpace(Slice(content, lo, hi)[i]);
    assert Slice(content, lo, hi')[i] == Slice(content, lo, hi)[i];
  }

  lemma OversizedPiece(content: string, lim: Limits, at: nat, symEnd: nat, i: nat)
    requires lim.Valid() && i < |Oversized(content, lim, at, symEnd)|
    ensures var p := Oversized(content, lim, at, symEnd)[i];
      && p.byteStart == None
      && !Blank(Slice(content, p.span.lo, p.span.hi))
      && |Slice(content, p.span.lo, p.span.hi)| <= lim.max
  {
    var segment := Slice(content, at, symEnd);
    NthWindow(segment, lim.max, lim.overlap, i);
    OversizedNth(content, lim, at, symEnd, i);
  }

  lemma WiderIsLonger(content: string, lim: Limits, lo: nat, hi: nat, end: nat)
    requires Monotone(lim.bytes) && hi <= end
    ensures lim.bytes(Slice(content, lo, hi)) <= lim.bytes(Slice(content, 0, end))
  {
    var whole := Slice(content, 0, end);
    var h := if hi < |content| then hi else |content|;
    if lo < h {
      assert Slice(content, lo, hi) == whole[lo..h];
    } else {
      assert Slice(content, lo, hi) == whole[0..0];
    }
  }

  lemma OversizedInOrder(content: string, lim: Limits, st: State, symEnd: nat)
    requires lim.Valid() && Monotone(lim.bytes) && InOrder(content, lim, st) && st.at <= symEnd
    requires lim.bytes(Slice(content, st.at, symEnd)) > lim.max
    ensures InOrder(content, lim, State(st.pieces + Oversized(content, lim, st.at, symEnd), symEnd))
  {
    var more := Oversized(content, lim, st.at, symEnd);
    WiderIsLonger(content, lim, st.at, symEnd, symEnd);
    forall i | 0 <= i < |more|
      ensures !Blank(Slice(content, more[i].span.lo, more[i].span.hi)) && more[i].byteStart == None
    {
      OversizedPiece(content, lim, st.at, symEnd, i);
    }
    if more == [] {
      assert st.pieces + more == st.pieces;
    } else {
      assert Last(st.pieces + more) == Last(more);
    }
  }

  lemma AppendGrows(content: string, lim: Limits, st: State, symEnd: nat, piece: Piece)
    requires InOrder(content, lim, st) && st.at <= symEnd && !Blank(Slice(content, piece.span.lo, piece.span.hi))
    requires piece.byteStart == Some(piece.span.lo) && piece.span.hi == symEnd
    ensures InOrder(content, lim, State(st.pieces + [piece], symEnd))
  {
    assert Last(st.pieces + [piece]) == piece;
  }

  lemma LongerLastExtends(front: seq<Piece>, last: Piece, longer: Piece)
    requires last.span.lo == longer.span.lo && last.span.hi <= longer.span.hi && last.byteStart != None
    ensures Extends(front + [last], front + [longer])
  {
  }

  lemma NoneBlankSnoc(content: string, pieces: seq<Piece>, p: Piece)
    requires NoneBlank(content, pieces) && !Blank(Slice(content, p.span.lo, p.span.hi))
    ensures NoneBlank(content, pieces + [p])
  {
  }

  lemma ReplaceGrows(content: string, lim: Limits, st: State, symEnd: nat, longer: Piece)
    requires InOrder(content, lim, st) && st.at <= symEnd && st.pieces != [] && Last(st.pieces).byteStart != None
    requires longer == Piece(Span(Last(st.pieces).span.lo, symEnd), Some(Last(st.pieces).span.lo))
    ensures InOrder(content, lim, State(Front(st.pieces) + [longer], symEnd))
    ensures Extends(st.pieces, Front(st.pieces) + [longer])
  {
    var front, last := Front(st.pieces), Last(st.pieces);
    LongerStaysNonBlank(content, last.span.lo, last.span.hi, symEnd);
    NoneBlankSnoc(content, front, longer);
    assert Last(front + [longer]) == longer;
    LongerLastExtends(front, last, longer);
    assert front + [last] == st.pieces;
  }

  lemma StepGrows(content: string, lim: Limits, st: State, symEnd: nat)
    requires lim.Valid() && Monotone(lim.bytes) && InOrder(content, lim, st) && st.at <= symEnd
    ensures InOrder(content, lim, Step(content, lim, st, symEnd))
    ensures Extends(st.pieces, Step(content, lim, st, symEnd).pieces)
  {
    WiderIsLonger(content, lim, 0, st.at, symEnd);
    if lim.bytes(Slice(content, st.at, symEnd)) > lim.max && st.pieces != [] {
      OversizedInOrder(content, lim, st, symEnd);
    } else if st.pieces != [] && lim.bytes(Slice(content, RecordedStart(Last(st.pieces)), symEnd)) <= lim.max {
      var start := RecordedStart(Last(st.pieces));
      ReplaceGrows(content, lim, st, symEnd, Piece(Span(start, symEnd), Some(start)));
    } else {
      var start := OverlapStart(lim, st.pieces, st.at);
      if !Blank(Slice(content, start, symEnd)) {
        AppendGrows(content, lim, st, symEnd, Piece(Span(start, symEnd), Some(start)));
      }
    }
  }

  lemma ExtendsOn(a: seq<Piece>, b: seq<Piece>, c: seq<Piece>)
    requires Extends(a, b) && Extends(b, c)
    ensures Extends(a, c)
  {
  }

  lemma {:induction false} ScanInOrder(content: string, lim: Limits, boundaries: seq<(nat, nat)>)
    requires lim.Valid() && Monotone(lim.bytes) && Ascending(boundaries)
    ensures InOrder(content, lim, Scan(content, lim, boundaries))
    ensures boundaries != [] ==> Scan(content, lim, boundaries).at == boundaries[|boundaries| - 1].1
  {
    if boundaries != [] {
      var n := |boundaries| - 1;
      ScanInOrder(content, lim, boundaries[..n]);
      StepGrows(content, lim, Scan(content, lim, boundaries[..n]), boundaries[n].1);
    }
  }

  /** The pieces after each of the first boundaries. */
  function PiecesAfter(content: string, lim: Limits, boundaries: seq<(nat, nat)>, k: nat): seq<Piece>
    requires lim.Valid() && k <= |boundaries|
  {
    Scan(content, lim, boundaries[..k]).pieces
  }

  lemma NextGrows(content: string, lim: Limits, boundaries: seq<(nat, nat)>, k: nat)
    requires lim.Valid() && Monotone(lim.bytes) && Ascending(boundaries) && k < |boundaries|
    ensures Extends(PiecesAfter(content, lim, boundaries, k), PiecesAfter(content, lim, boundaries, k + 1))
  {
    ScanInOrder(content, lim, boundaries[..k]);
    ScanStep(content, lim, boundaries, k);
    StepGrows(content, lim, Scan(content, lim, boundaries[..k]), boundaries[k].1);
  }

  predicate GrowsAt(stages: seq<seq<Piece>>, i: nat)
    requires i + 1 < |stages|
  {
    Extends(stages[i], stages[i + 1])
  }

  lemma {:induction false} StagesGrow(stages: seq<seq<Piece>>, k: nat, m: nat)
    requires k <= m < |stages| && forall i :: 0 <= i < |stages| - 1 ==> GrowsAt(stages, i)
    ensures Extends(stages[k], stages[m])
  {
    if k < m {
      StagesGrow(stages, k, m - 1);
      assert GrowsAt(stages, m - 1);
      ExtendsOn(stages[k], stages[m - 1], stages[m]);
    }
  }

  lemma ScanGrows(content: string, lim: Limits, boundaries: seq<(nat, nat)>, k: nat, m: nat)
    requires lim.Valid() && Monotone(lim.bytes) && Ascending(boundaries) && k <= m <= |boundaries|
    ensures Extends(PiecesAfter(content, lim, boundaries, k), PiecesAfter(content, lim, boundaries, m))
  {
    var stages := seq(|boundaries| + 1, i requires 0 <= i <= |boundaries| => PiecesAfter(content, lim, boundaries, i));
    forall i | 0 <= i < |boundaries| ensures GrowsAt(stages, i) { NextGrows(content, lim, boundaries, i); }
    StagesGrow(stages, k, m);
  }

  lemma ExtendsMore(a: seq<Piece>, b: seq<Piece>, more: seq<Piece>)
    requires Extends(a, b)
    ensures Extends(a, b + more)
  {
  }

  /** With ascending boundaries no chunk, once made, ever loses text, and none is blank. */
  lemma SortedMergeOnlyGrows(content: string, lim: Limits, boundaries: seq<(nat, nat)>, k: nat)
    requires lim.Valid() && Monotone(lim.bytes) && Ascending(boundaries) && k <= |boundaries|
    ensures Extends(Scan(content, lim, boundaries[..k]).pieces, Merged(content, lim, boundaries))
    ensures NoneBlank(content, Merged(content, lim, boundaries))
  {
    var st := Scan(content, lim, boundaries);
    ScanGrows(content, lim, boundaries, k, |boundaries|);
    assert boundaries[..|boundaries|] == boundaries;
    ScanInOrder(content, lim, boundaries);
    ExtendsMore(Scan(content, lim, boundaries[..k]).pieces, st.pieces, [Piece(Span(st.at, |content|), None)]);
    if st.at < |content| { TrailingText(content, st.at); }
  }

  lemma TrailingText(content: string, at: nat)
    requires at <= |content|
    ensures Slice(content, at, |content|) == content[at..]
  {
  }

  const LENGTH: string -> nat := (s: string) => |s|

  lemma UnorderedFirstTwo(c: string, lim: Limits, b: seq<(nat, nat)>)
    requires c == "abcde" && lim == Limits(2, 1, LENGTH) && b == [(0, 3), (3, 5), (0, 1)]
    ensures Scan(c, lim, b[..2]) == State([Piece(Span(0, 3), Some(0)), Piece(Span(2, 5), Some(2))], 5)
  {
    assert b[..1] == [(0, 3)] && b[..2][..1] == b[..1];
    assert Slice(c, 0, 3)[0] == 'a' && Slice(c, 2, 5)[0] == 'c';
    var s1 := State([Piece(Span(0, 3), Some(0))], 3);
    assert Scan(c, lim, b[..1]) == s1;
    assert Scan(c, lim, b[..2]) == Step(c, lim, s1, 5);
  }

  lemma EmptiesLast(c: string, lim: Limits, p: Piece, q: Piece)
    requires lim == Limits(2, 1, LENGTH) && q.byteStart == Some(2)
    ensures Step(c, lim, State([p, q], 5), 1) == State([p, Piece(Span(2, 1), Some(2))], 1)
  {
    assert |Slice(c, 5, 1)| == |Slice(c, 2, 1)| == 0;
    assert Front([p, q]) == [p] && Last([p, q]) == q;
  }

  lemma UnorderedThird(c: string, lim: Limits, b: seq<(nat, nat)>)
    requires c == "abcde" && lim == Limits(2, 1, LENGTH) && b == [(0, 3), (3, 5), (0, 1)]
    ensures Scan(c, lim, b) == State([Piece(Span(0, 3), Some(0)), Piece(Span(2, 1), Some(2))], 1)
  {
    UnorderedFirstTwo(c, lim, b);
    ScanStep(c, lim, b, 2);
    assert b[..3] == b;
    EmptiesLast(c, lim, Piece(Span(0, 3), Some(0)), Piece(Span(2, 5), Some(2)));
  }

  /** Order matters for that: here the second chunk is replaced by an empty one. The syntax tree lists its
      top-level nodes in document order, so the merger does not meet such a list there. */
  lemma UnorderedMergeCanEmptyAChunk()
    ensures var pieces := Merged("abcde", Limits(2, 1, LENGTH), [(0, 3), (3, 5), (0, 1)]);
      |pieces| >= 2 && pieces[1] == Piece(Span(2, 1), Some(2)) && !NoneBlank("abcde", pieces)
  {
    var c, lim, b: seq<(nat, nat)> := "abcde", Limits(2, 1, LENGTH), [(0, 3), (3, 5), (0, 1)];
    UnorderedThird(c, lim, b);
    var pieces := Merged(c, lim, b);
    assert pieces[1] == Scan(c, lim, b).pieces[1];
    assert Blank(Slice(c, pieces[1].span.lo, pieces[1].span.hi));
  }

  // ----- size, and the whole code chunker ----------------------------------------------

  predicate PieceWithin(content: string, p: Piece, size: nat) { |Slice(content, p.span.lo, p.span.hi)| <= size }

  predicate AllButFirstWithin(content: string, pieces: seq<Piece>, size: nat) {
    forall i :: 1 <= i < |pieces| ==> PieceWithin(content, pieces[i], size)
  }

  lemma MoreWithin(content: string, pieces: seq<Piece>, more: seq<Piece>, size: nat)
    requires AllButFirstWithin(content, pieces, size)
    requires (pieces == [] && |more| <= 1) || forall i :: 0 <= i < |more| ==> PieceWithin(content, more[i], size)
    ensures AllButFirstWithin(content, pieces + more, size)
  {
  }

  lemma OversizedWithin(content: string, lim: Limits, at: nat, symEnd: nat)
    requires lim.Valid()
    ensures forall i :: 0 <= i < |Oversized(content, lim, at, symEnd)| ==>
      PieceWithin(content, Oversized(content, lim, at, symEnd)[i], lim.max + lim.overlap)
  {
    var more := Oversized(content, lim, at, symEnd);
    forall i | 0 <= i < |more| ensures PieceWithin(content, more[i], lim.max + lim.overlap) {
      OversizedPiece(content, lim, at, symEnd, i);
    }
  }

  lemma AppendOrExtendWithin(content: string, lim: Limits, pieces: seq<Piece>, at: nat, symEnd: nat)
    requires AtLeastLength(lim.bytes) && AllButFirstWithin(content, pieces, lim.max + lim.overlap)
    requires pieces != [] ==> lim.bytes(Slice(content, at, symEnd)) <= lim.max
    ensures AllButFirstWithin(content, AppendOrExtend(content, lim, pieces, at, symEnd), lim.max + lim.overlap)
  {
    var size := lim.max + lim.overlap;
    if pieces != [] && lim.bytes(Slice(content, RecordedStart(Last(pieces)), symEnd)) <= lim.max {
      var start := RecordedStart(Last(pieces));
      MoreWithin(content, Front(pieces), [Piece(Span(start, symEnd), Some(start))], size);
    } else {
      var start := OverlapStart(lim, pieces, at);
      if pieces != [] {
        assert |Slice(content, at, symEnd)| <= lim.bytes(Slice(content, at, symEnd));
        assert PieceWithin(content, Piece(Span(start, symEnd), Some(start)), size);
      }
      MoreWithin(content, pieces, [Piece(Span(start, symEnd), Some(start))], size);
    }
  }

  lemma StepBoundsSize(content: string, lim: Limits, st: State, symEnd: nat)
    requires lim.Valid() && AtLeastLength(lim.bytes) && AllButFirstWithin(content, st.pieces, lim.max + lim.overlap)
    ensures AllButFirstWithin(content, Step(content, lim, st, symEnd).pieces, lim.max + lim.overlap)
  {
    if lim.bytes(Slice(content, st.at, symEnd)) > lim.max && st.pieces != [] {
      OversizedWithin(content, lim, st.at, symEnd);
      MoreWithin(content, st.pieces, Oversized(content, lim, st.at, symEnd), lim.max + lim.overlap);
    } else {
      AppendOrExtendWithin(content, lim, st.pieces, st.at, symEnd);
    }
  }

  /** Counted in characters, which is how sliding-window chunks are limited, only the first of the chunks
      the scan makes can exceed the limit by more than the overlap. */
  lemma {:induction false} ScanBoundsSize(content: string, lim: Limits, boundaries: seq<(nat, nat)>)
    requires lim.Valid() && AtLeastLength(lim.bytes)
    ensures AllButFirstWithin(content, Scan(content, lim, boundaries).pieces, lim.max + lim.overlap)
  {
    if boundaries != [] {
      var n := |boundaries| - 1;
      ScanBoundsSize(content, lim, boundaries[..n]);
      StepBoundsSize(content, lim, Scan(content, lim, boundaries[..n]), boundaries[n].1);
    }
  }

  /** The ranges of the final code chunks: the merged pieces, or the sliding window, which has limits of
      its own, when there are none. */
  function CodeSpans(content: string, lim: Limits, boundaries: Option<seq<(nat, nat)>>, size: nat,
                     overlap: nat): seq<Span>
    requires lim.Valid() && overlap < size
  {
    var pieces := match boundaries case Some(b) => Merged(content, lim, b) case None => [];
    if pieces != [] then seq(|pieces|, i requires 0 <= i < |pieces| => pieces[i].span)
    else WindowSpans(content, 0, size, overlap)
  }

  method ChunkCode(content: string, lim: Limits, boundaries: Option<seq<(nat, nat)>>, size: nat, overlap: nat)
    returns (chunks: seq<Chunk>)
    requires lim.Valid() && overlap < size
    ensures chunks == Render(content, CodeSpans(content, lim, boundaries, size, overlap), 0)
  {
    match boundaries
    case Some(b) =>
      chunks := MergeBoundariesIntoChunks(content, lim, b);
      if chunks != [] {
        chunks := seq(|chunks|, i requires 0 <= i < |chunks| => chunks[i].(byteStart := None));
        return;
      }
      chunks := SlidingWindowChunk(content, size, overlap, 0);
    case None =>
      chunks := SlidingWindowChunk(content, size, overlap, 0);
  }

  /** Chunking code never loses a character that is not white space, with or without a syntax tree. */
  lemma CodeChunksCoverText(content: string, lim: Limits, boundaries: Option<seq<(nat, nat)>>, size: nat, overlap: nat,
                            p: nat)
    requires lim.Valid() && overlap < size && p < |content| && !IsSpace(content[p])
    ensures exists s :: s in CodeSpans(content, lim, boundaries, size, overlap) && Within(p, s)
  {
    var spans := CodeSpans(content, lim, boundaries, size, overlap);
    var pieces := match boundaries case Some(b) => Merged(content, lim, b) case None => [];
    if pieces != [] {
      MergingLosesNothing(content, lim, boundaries.value, p);
      var i :| 0 <= i < |pieces| && Within(p, pieces[i].span);
      assert spans[i] in spans;
    } else {
      WindowsCover(content, 0, size, overlap, p);
    }
  }
}
