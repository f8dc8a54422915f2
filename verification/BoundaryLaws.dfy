/** What the boundary merger promises of neighbouring chunks: that they could not have been one, and how
    much text they share. */
module BoundaryLaws {
  import opened PyText
  import opened SlidingWindow
  import opened BoundaryMerge

  predicate BlankBetween(content: string, lo: nat, hi: nat) {
    forall p :: lo <= p < hi && p < |content| ==> IsSpace(content[p])
  }

  /** Two neighbours with recorded starts would have been too large as one. */
  predicate TooLargeAsOne(content: string, lim: Limits, p: Piece, q: Piece) {
    p.byteStart.Some? && q.byteStart.Some? ==> lim.bytes(Slice(content, p.span.lo, q.span.hi)) > lim.max
  }

  /** A piece with a recorded start goes back from the end `from` of a boundary by exactly the overlap, or to
      the beginning, and only white space lies between its predecessor's end and there. */
  predicate SharesFrom(content: string, lim: Limits, p: Piece, q: Piece, from: nat) {
    && (q.span.lo + lim.overlap == from || (q.span.lo == 0 && from < lim.overlap))
    && (p.byteStart.Some? ==> p.span.hi <= from && BlankBetween(content, p.span.hi, from))
  }

  ghost predicate Shares(content: string, lim: Limits, ends: seq<nat>, p: Piece, q: Piece) {
    q.byteStart.Some? ==> exists m :: 0 <= m < |ends| && SharesFrom(content, lim, p, q, ends[m])
  }

  ghost predicate Neighbours(content: string, lim: Limits, ends: seq<nat>, p: Piece, q: Piece) {
    TooLargeAsOne(content, lim, p, q) && Shares(content, lim, ends, p, q)
  }

  ghost predicate AllNeighbours(content: string, lim: Limits, ends: seq<nat>, pieces: seq<Piece>) {
    forall i :: 1 <= i < |pieces| ==> Neighbours(content, lim, ends, pieces[i - 1], pieces[i])
  }

  predicate StartsRecorded(pieces: seq<Piece>) {
    && (pieces != [] ==> pieces[0].byteStart.Some?)
    && forall i :: 0 <= i < |pieces| && pieces[i].byteStart.Some? ==> pieces[i].byteStart.value == pieces[i].span.lo
  }

  predicate LastReaches(content: string, st: State) {
    st.pieces != [] && Last(st.pieces).byteStart.Some? ==>
      Last(st.pieces).span.hi <= st.at && BlankBetween(content, Last(st.pieces).span.hi, st.at)
  }

  /** What holds after each boundary; `ends` are the ends of the boundaries so far. */
  ghost predicate Law(content: string, lim: Limits, ends: seq<nat>, st: State) {
    && AllNeighbours(content, lim, ends, st.pieces) && StartsRecorded(st.pieces) && LastReaches(content, st)
    && (st.at in ends || (st.at == 0 && st.pieces == []))
    && (st.pieces != [] ==> st.pieces[0].span.lo == 0 || st.pieces[0].span.lo in ends)
  }

  // ----- one step ----------------------------------------------------------------------

  lemma LongerIsLarger(content: string, lim: Limits, lo: nat, hi: nat, hi': nat)
    requires Monotone(lim.bytes) && hi <= hi'
    ensures lim.bytes(Slice(content, lo, hi)) <= lim.bytes(Slice(content, lo, hi'))
  {
    var wide := Slice(content, lo, hi');
    var h := if hi < |content| then hi else |content|;
    if lo < h {
      assert Slice(content, lo, hi) == wide[0..h - lo];
    } else {
      assert Slice(content, lo, hi) == wide[0..0];
    }
  }

  lemma MoreEnds(content: string, lim: Limits, ends: seq<nat>, end: nat, p: Piece, q: Piece)
    requires Neighbours(content, lim, ends, p, q)
    ensures Neighbours(content, lim, ends + [end], p, q)
  {
    if q.byteStart.Some? {
      var m :| 0 <= m < |ends| && SharesFrom(content, lim, p, q, ends[m]);
      assert (ends + [end])[m] == ends[m];
    }
  }

  lemma AllMoreEnds(content: string, lim: Limits, ends: seq<nat>, end: nat, pieces: seq<Piece>)
    requires AllNeighbours(content, lim, ends, pieces)
    ensures AllNeighbours(content, lim, ends + [end], pieces)
  {
    forall i | 1 <= i < |pieces| ensures Neighbours(content, lim, ends + [end], pieces[i - 1], pieces[i]) {
      MoreEnds(content, lim, ends, end, pieces[i - 1], pieces[i]);
    }
  }

  lemma NeighboursSnoc(content: string, lim: Limits, ends: seq<nat>, pieces: seq<Piece>, q: Piece)
    requires AllNeighbours(content, lim, ends, pieces)
    requires pieces != [] ==> Neighbours(content, lim, ends, Last(pieces), q)
    ensures AllNeighbours(content, lim, ends, pieces + [q])
  {
    var all := pieces + [q];
    forall i | 1 <= i < |all| ensures Neighbours(content, lim, ends, all[i - 1], all[i]) {
      if i < |pieces| { assert all[i - 1] == pieces[i - 1] && all[i] == pieces[i]; }
    }
  }

  /** Pieces without recorded starts can follow anything. */
  lemma {:induction false} WindowsFollow(content: string, lim: Limits, ends: seq<nat>, pieces: seq<Piece>,
                                         more: seq<Piece>)
    requires AllNeighbours(content, lim, ends, pieces) && forall i :: 0 <= i < |more| ==> more[i].byteStart == None
    ensures AllNeighbours(content, lim, ends, pieces + more)
  {
    if more == [] {
      assert pieces + more == pieces;
    } else {
      var n := |more| - 1;
      WindowsFollow(content, lim, ends, pieces, more[..n]);
      NeighboursSnoc(content, lim, ends, pieces + more[..n], more[n]);
      assert pieces + more == (pieces + more[..n]) + [more[n]];
    }
  }

  lemma OversizedKeepsLaw(content: string, lim: Limits, ends: seq<nat>, st: State, end: nat)
    requires lim.Valid() && Law(content, lim, ends, st) && st.pieces != [] && st.at <= end
    requires Oversized(content, lim, st.at, end) == [] ==> BlankBetween(content, st.at, end)
    ensures Law(content, lim, ends + [end], State(st.pieces + Oversized(content, lim, st.at, end), end))
  {
    var more := Oversized(content, lim, st.at, end);
    AllMoreEnds(content, lim, ends, end, st.pieces);
    WindowsFollow(content, lim, ends + [end], st.pieces, more);
    if more == [] {
      assert st.pieces + more == st.pieces;
    } else {
      assert Last(st.pieces + more) == Last(more);
    }
  }

  lemma NoWindowsIsBlank(content: string, lim: Limits, at: nat, end: nat)
    requires lim.Valid() && Oversized(content, lim, at, end) == []
    ensures BlankBetween(content, at, end)
  {
    var segment := Slice(content, at, end);
    forall p | at <= p < end && p < |content| ensures IsSpace(content[p]) {
      assert segment[p - at] == content[p];
      if !IsSpace(segment[p - at]) { WindowsCover(segment, 0, lim.max, lim.overlap, p - at); }
    }
  }

  lemma ReplacedNeighbour(content: string, lim: Limits, ends: seq<nat>, p: Piece, q: Piece, longer: Piece)
    requires Monotone(lim.bytes) && Neighbours(content, lim, ends, p, q) && q.byteStart.Some?
    requires longer.byteStart.Some? && longer.span.lo == q.span.lo && q.span.hi <= longer.span.hi
    ensures Neighbours(content, lim, ends, p, longer)
  {
    LongerIsLarger(content, lim, p.span.lo, q.span.hi, longer.span.hi);
    var m :| 0 <= m < |ends| && SharesFrom(content, lim, p, q, ends[m]);
    assert SharesFrom(content, lim, p, longer, ends[m]);
  }

  lemma LastTwo(content: string, lim: Limits, ends: seq<nat>, pieces: seq<Piece>)
    requires AllNeighbours(content, lim, ends, pieces) && pieces != []
    ensures AllNeighbours(content, lim, ends, Front(pieces))
    ensures Front(pieces) != [] ==> Neighbours(content, lim, ends, Last(Front(pieces)), Last(pieces))
  {
  }

  lemma ReplacingKeepsLaw(content: string, lim: Limits, ends: seq<nat>, st: State, end: nat, longer: Piece)
    requires Monotone(lim.bytes) && Law(content, lim, ends, st) && st.pieces != [] && st.at <= end
    requires Last(st.pieces).byteStart.Some?
    requires longer == Piece(Span(Last(st.pieces).span.lo, end), Some(Last(st.pieces).span.lo))
    ensures Law(content, lim, ends + [end], State(Front(st.pieces) + [longer], end))
  {
    var front := Front(st.pieces);
    AllMoreEnds(content, lim, ends, end, st.pieces);
    LastTwo(content, lim, ends + [end], st.pieces);
    if front != [] { ReplacedNeighbour(content, lim, ends + [end], Last(front), Last(st.pieces), longer); }
    NeighboursSnoc(content, lim, ends + [end], front, longer);
    assert Last(front + [longer]) == longer;
  }

  lemma AppendedNeighbour(content: string, lim: Limits, ends: seq<nat>, st: State, q: Piece)
    requires Law(content, lim, ends, st) && st.pieces != []
    requires q.byteStart.Some? && q.span.lo == OverlapStart(lim, st.pieces, st.at)
    requires Last(st.pieces).byteStart.Some? ==>
      lim.bytes(Slice(content, Last(st.pieces).span.lo, q.span.hi)) > lim.max
    ensures Neighbours(content, lim, ends, Last(st.pieces), q)
  {
    var m :| 0 <= m < |ends| && ends[m] == st.at;
    assert SharesFrom(content, lim, Last(st.pieces), q, ends[m]);
  }

  lemma AppendingKeepsLaw(content: string, lim: Limits, ends: seq<nat>, st: State, end: nat, q: Piece)
    requires Law(content, lim, ends, st) && st.at <= end
    requires q == Piece(Span(OverlapStart(lim, st.pieces, st.at), end), Some(OverlapStart(lim, st.pieces, st.at)))
    requires st.pieces != [] && Last(st.pieces).byteStart.Some? ==>
      lim.bytes(Slice(content, Last(st.pieces).span.lo, end)) > lim.max
    ensures Law(content, lim, ends + [end], State(st.pieces + [q], end))
  {
    AllMoreEnds(content, lim, ends, end, st.pieces);
    if st.pieces != [] {
      AppendedNeighbour(content, lim, ends, st, q);
      MoreEnds(content, lim, ends, end, Last(st.pieces), q);
    }
    NeighboursSnoc(content, lim, ends + [end], st.pieces, q);
    assert Last(st.pieces + [q]) == q;
  }

  lemma DroppingKeepsLaw(content: string, lim: Limits, ends: seq<nat>, st: State, end: nat)
    requires Law(content, lim, ends, st) && st.at <= end
    requires Blank(Slice(content, OverlapStart(lim, st.pieces, st.at), end))
    ensures Law(content, lim, ends + [end], State(st.pieces, end))
  {
    var start := OverlapStart(lim, st.pieces, st.at);
    AllMoreEnds(content, lim, ends, end, st.pieces);
    forall p | st.at <= p < end && p < |content| ensures IsSpace(content[p]) {
      assert Slice(content, start, end)[p - start] == content[p];
    }
  }

  lemma StepKeepsLaw(content: string, lim: Limits, ends: seq<nat>, st: State, end: nat)
    requires lim.Valid() && Monotone(lim.bytes) && InOrder(content, lim, st) && st.at <= end
    requires Law(content, lim, ends, st)
    ensures Law(content, lim, ends + [end], Step(content, lim, st, end))
  {
    WiderIsLonger(content, lim, 0, st.at, end);
    if lim.bytes(Slice(content, st.at, end)) > lim.max && st.pieces != [] {
      if Oversized(content, lim, st.at, end) == [] { NoWindowsIsBlank(content, lim, st.at, end); }
      OversizedKeepsLaw(content, lim, ends, st, end);
    } else if st.pieces != [] && lim.bytes(Slice(content, RecordedStart(Last(st.pieces)), end)) <= lim.max {
      var start := RecordedStart(Last(st.pieces));
      ReplacingKeepsLaw(content, lim, ends, st, end, Piece(Span(start, end), Some(start)));
    } else {
      var start := OverlapStart(lim, st.pieces, st.at);
      if Blank(Slice(content, start, end)) {
        DroppingKeepsLaw(content, lim, ends, st, end);
      } else {
        AppendingKeepsLaw(content, lim, ends, st, end, Piece(Span(start, end), Some(start)));
      }
    }
  }

  // ----- the whole scan ----------------------------------------------------------------

  function Ends(boundaries: seq<(nat, nat)>): (r: seq<nat>)
    ensures |r| == |boundaries| && forall i :: 0 <= i < |r| ==> r[i] == boundaries[i].1
  {
    seq(|boundaries|, i requires 0 <= i < |boundaries| => boundaries[i].1)
  }

  lemma {:induction false} ScanKeepsLaw(content: string, lim: Limits, boundaries: seq<(nat, nat)>)
    requires lim.Valid() && Monotone(lim.bytes) && Ascending(boundaries)
    ensures Law(content, lim, Ends(boundaries), Scan(content, lim, boundaries))
  {
    if boundaries != [] {
      var n := |boundaries| - 1;
      var st := Scan(content, lim, boundaries[..n]);
      ScanKeepsLaw(content, lim, boundaries[..n]);
      ScanInOrder(content, lim, boundaries[..n]);
      assert Ends(boundaries) == Ends(boundaries[..n]) + [boundaries[n].1];
      StepKeepsLaw(content, lim, Ends(boundaries[..n]), st, boundaries[n].1);
    }
  }

  /** Merging is thorough: with ascending boundaries, and when a longer text is not measured shorter, the text
      from the start of one chunk to the end of the next measures more than the limit, unless one of them
      comes from the sliding window. */
  lemma NeighboursAreTooLarge(content: string, lim: Limits, boundaries: seq<(nat, nat)>, i: nat)
    requires lim.Valid() && Monotone(lim.bytes) && Ascending(boundaries)
    requires 1 <= i < |Scan(content, lim, boundaries).pieces|
    ensures var p, q := Scan(content, lim, boundaries).pieces[i - 1], Scan(content, lim, boundaries).pieces[i];
      p.byteStart.Some? && q.byteStart.Some? ==> lim.bytes(Slice(content, p.span.lo, q.span.hi)) > lim.max
  {
    ScanKeepsLaw(content, lim, boundaries);
    var pieces := Scan(content, lim, boundaries).pieces;
    assert Neighbours(content, lim, Ends(boundaries), pieces[i - 1], pieces[i]);
  }

  /** Chunks share what they should: each chunk but the first that is not from the sliding window starts
      exactly the overlap before the end of some boundary, or at the beginning when that lies nearer; and
      from the end of a chunk before it to that boundary's end there is only white space. */
  lemma NeighboursShareOverlap(content: string, lim: Limits, boundaries: seq<(nat, nat)>, i: nat)
    requires lim.Valid() && Monotone(lim.bytes) && Ascending(boundaries)
    requires 1 <= i < |Scan(content, lim, boundaries).pieces|
    ensures var p, q := Scan(content, lim, boundaries).pieces[i - 1], Scan(content, lim, boundaries).pieces[i];
      q.byteStart.Some? ==>
        exists m :: 0 <= m < |boundaries| && SharesFrom(content, lim, p, q, boundaries[m].1)
  {
    ScanKeepsLaw(content, lim, boundaries);
    var pieces := Scan(content, lim, boundaries).pieces;
    var p, q := pieces[i - 1], pieces[i];
    assert Neighbours(content, lim, Ends(boundaries), p, q);
    if q.byteStart.Some? {
      var m :| 0 <= m < |boundaries| && SharesFrom(content, lim, p, q, Ends(boundaries)[m]);
      assert SharesFrom(content, lim, p, q, boundaries[m].1);
    }
  }

  /** The first chunk of the scan is never from the sliding window, and it starts at the beginning or where
      some boundary ends, without any overlap. */
  lemma FirstIsNoWindow(content: string, lim: Limits, boundaries: seq<(nat, nat)>)
    requires lim.Valid() && Monotone(lim.bytes) && Ascending(boundaries)
    ensures var pieces := Scan(content, lim, boundaries).pieces; pieces != [] ==>
      && pieces[0].byteStart.Some?
      && (pieces[0].span.lo == 0 || exists m :: 0 <= m < |boundaries| && pieces[0].span.lo == boundaries[m].1)
  {
    ScanKeepsLaw(content, lim, boundaries);
    var pieces := Scan(content, lim, boundaries).pieces;
    if pieces != [] && pieces[0].span.lo != 0 {
      var m :| 0 <= m < |boundaries| && Ends(boundaries)[m] == pieces[0].span.lo;
    }
  }

  lemma BlankRest(content: string, end: nat)
    requires end < |content|
    ensures Blank(content[end..]) <==> BlankBetween(content, end, |content|)
  {
    forall i | 0 <= i < |content| - end ensures content[end..][i] == content[end + i] {}
    if !Blank(content[end..]) {
      var i :| 0 <= i < |content[end..]| && !IsSpace(content[end..][i]);
      assert !IsSpace(content[end + i]);
    } else {
      forall p | end <= p < |content| ensures IsSpace(content[p]) { assert content[end..][p - end] == content[p]; }
    }
  }

  /** The last of all chunks holds just the text behind the last boundary, unless that is blank. */
  lemma LastIsTheRest(content: string, lim: Limits, boundaries: seq<(nat, nat)>)
    requires lim.Valid() && Monotone(lim.bytes) && Ascending(boundaries)
    ensures var end := if boundaries == [] then 0 else boundaries[|boundaries| - 1].1;
      var scanned := Scan(content, lim, boundaries).pieces;
      Merged(content, lim, boundaries)
        == if BlankBetween(content, end, |content|) then scanned else scanned + [Piece(Span(end, |content|), None)]
  {
    ScanInOrder(content, lim, boundaries);
    var end := Scan(content, lim, boundaries).at;
    if end < |content| { BlankRest(content, end); }
  }
}
