/** The character window that every other chunking strategy falls back on. */
module SlidingWindow {
  import opened PyText

  /** A document chunk; `byteStart` is the `_byte_start` metadata entry, present only on
      chunks that the boundary merger built itself. */
  datatype Chunk = Chunk(index: nat, content: string, byteStart: Option<nat>)

  /** A half-open range of positions of the chunked text. */
  datatype Span = Span(lo: nat, hi: nat)

  predicate Within(p: int, s: Span) { s.lo <= p < s.hi }

  /** The start of every window examined from `start` on. */
  function WindowStarts(n: nat, start: nat, step: nat): seq<nat>
    requires step > 0
    decreases n - start
  {
    if start >= n then [] else [start] + WindowStarts(n, start + step, step)
  }

  /** The window that starts at `start`, cut off at the end of the text. */
  function Window(n: nat, start: nat, size: nat): Span
    requires start <= n
  {
    Span(start, if start + size < n then start + size else n)
  }

  /** The windows from `start` on that are not blank, as ranges of `content`. */
  function WindowSpans(content: string, start: nat, size: nat, overlap: nat): seq<Span>
    requires overlap < size
    decreases |content| - start
  {
    if start >= |content| then []
    else
      var w := Window(|content|, start, size);
      (if Blank(content[w.lo..w.hi]) then [] else [w]) + WindowSpans(content, start + size - overlap, size, overlap)
  }

  /** The chunks that carry `spans` of `content`, numbered from `first`. */
  function Render(content: string, spans: seq<Span>, first: nat): (chunks: seq<Chunk>)
    ensures |chunks| == |spans|
  {
    seq(|spans|, i requires 0 <= i < |spans| => Chunk(first + i, Slice(content, spans[i].lo, spans[i].hi), None))
  }

  lemma RenderSnoc(content: string, spans: seq<Span>, s: Span, first: nat)
    ensures Render(content, spans + [s], first)
         == Render(content, spans, first) + [Chunk(first + |spans|, Slice(content, s.lo, s.hi), None)]
  {
  }

  lemma NextWindow(content: string, start: nat, size: nat, overlap: nat, before: seq<Span>)
    requires overlap < size && start < |content|
    ensures var w := Window(|content|, start, size);
      && Slice(content, start, start + size) == Slice(content, w.lo, w.hi) == content[w.lo..w.hi]
      && before + WindowSpans(content, start, size, overlap)
      == (if Blank(content[w.lo..w.hi]) then before else before + [w])
         + WindowSpans(content, start + size - overlap, size, overlap)
  {
  }

  method SlidingWindowChunk(content: string, chunkSize: nat, chunkOverlap: nat, startIndex: nat)
    returns (chunks: seq<Chunk>)
    requires chunkOverlap < chunkSize
    ensures chunks == Render(content, WindowSpans(content, 0, chunkSize, chunkOverlap), startIndex)
  {
    chunks := [];
    var start, chunkIndex := 0, startIndex;
    ghost var all := WindowSpans(content, 0, chunkSize, chunkOverlap);
    ghost var spans := [];
    while start < |content|
      invariant chunkIndex == startIndex + |spans|
      invariant chunks == Render(content, spans, startIndex)
      invariant all == spans + WindowSpans(content, start, chunkSize, chunkOverlap)
      decreases |content| - start
    {
      var end := start + chunkSize;
      var chunkText := Slice(content, start, end);
      ghost var window := Window(|content|, start, chunkSize);
      NextWindow(content, start, chunkSize, chunkOverlap, spans);
      if !Blank(chunkText) {
        RenderSnoc(content, spans, window, startIndex);
        chunks := chunks + [Chunk(chunkIndex, chunkText, None)];
        chunkIndex := chunkIndex + 1;
        spans := spans + [window];
      }
      start := end - chunkOverlap;
    }
  }

  /** Exactly ceil((n - start) / step) windows are examined, and the k-th starts at k * step. */
  lemma {:induction false} WindowCount(n: nat, start: nat, step: nat)
    requires step > 0
    ensures start < n ==>
      (|WindowStarts(n, start, step)| - 1) * step < n - start <= |WindowStarts(n, start, step)| * step
    ensures start >= n ==> |WindowStarts(n, start, step)| == 0
    ensures forall k :: 0 <= k < |WindowStarts(n, start, step)| ==> WindowStarts(n, start, step)[k] == start + k * step
    decreases n - start
  {
    if start < n {
      WindowCount(n, start + step, step);
      var rest := WindowStarts(n, start + step, step);
      var all := WindowStarts(n, start, step);
      assert all == [start] + rest;
      forall k | 0 <= k < |all|
        ensures all[k] == start + k * step
      {
        if k > 0 {
          assert all[k] == rest[k - 1] == start + step + (k - 1) * step;
        }
      }
    }
  }

  /** The parts of the text that the windows do not share: the first `step` characters of each. */
  function FirstParts(content: string, starts: seq<nat>, step: nat): string {
    if starts == [] then "" else Slice(content, starts[0], starts[0] + step) + FirstParts(content, starts[1..], step)
  }

  lemma FirstPart(content: string, start: nat, step: nat)
    requires start <= |content|
    ensures Slice(content, start, start + step) + (if start + step <= |content| then content[start + step..] else "")
         == content[start..]
  {
  }

  /** The unshared parts of all windows, one after the other, are the text itself. */
  lemma {:induction false} WindowsRebuildText(content: string, start: nat, step: nat)
    requires step > 0 && start <= |content|
    ensures FirstParts(content, WindowStarts(|content|, start, step), step) == content[start..]
    decreases |content| - start
  {
    if start < |content| {
      var rest := WindowStarts(|content|, start + step, step);
      assert ([start] + rest)[0] == start && ([start] + rest)[1..] == rest;
      FirstPart(content, start, step);
      if start + step <= |content| {
        WindowsRebuildText(content, start + step, step);
      } else {
        assert rest == [];
      }
    }
  }

  /** Every emitted span is a window that was examined, and is not blank. */
  lemma {:induction false} SpansAreWindows(content: string, start: nat, size: nat, overlap: nat)
    requires overlap < size
    ensures forall s :: s in WindowSpans(content, start, size, overlap) ==>
      && s.lo in WindowStarts(|content|, start, size - overlap)
      && start <= s.lo < s.hi <= |content| && s.hi - s.lo <= size
      && !Blank(content[s.lo..s.hi])
    decreases |content| - start
  {
    if start < |content| {
      SpansAreWindows(content, start + size - overlap, size, overlap);
    }
  }

  /** Dropping blank windows loses white space only: every other position lies in an emitted span. */
  lemma {:induction false} WindowsCover(content: string, start: nat, size: nat, overlap: nat, p: nat)
    requires overlap < size
    requires start <= p < |content| && !IsSpace(content[p])
    ensures exists s :: s in WindowSpans(content, start, size, overlap) && Within(p, s)
    decreases |content| - start
  {
    var w := Window(|content|, start, size);
    if Within(p, w) {
      assert content[w.lo..w.hi][p - w.lo] == content[p];
      assert w in WindowSpans(content, start, size, overlap);
    } else {
      WindowsCover(content, start + size - overlap, size, overlap, p);
      var s :| s in WindowSpans(content, start + size - overlap, size, overlap) && Within(p, s);
      assert s in WindowSpans(content, start, size, overlap);
    }
  }
}
