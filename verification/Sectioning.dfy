/** Line-based sectioning of YAML and Markdown documents. */
module Sectioning {
  import opened PyText
  import opened SlidingWindow

  function Flatten(sections: seq<seq<string>>): seq<string> {
    if sections == [] then [] else Flatten(sections[..|sections| - 1]) + sections[|sections| - 1]
  }

  /** The size the chunkers account for: every line and its newline. */
  function SizeOf(section: seq<string>): nat {
    if section == [] then 0 else SizeOf(section[..|section| - 1]) + |section[|section| - 1]| + 1
  }

  function SectionText(section: seq<string>): string { JoinLines(section) }

  /** The chunks of the sections that are not blank, stripped and numbered consecutively. */
  function Chunks(sections: seq<seq<string>>): seq<Chunk> {
    if sections == [] then []
    else
      var before := Chunks(sections[..|sections| - 1]);
      var text := SectionText(sections[|sections| - 1]);
      if Blank(text) then before else before + [Chunk(|before|, Strip(text), None)]
  }

  lemma ChunksSnoc(sections: seq<seq<string>>, section: seq<string>)
    ensures Chunks(sections + [section])
         == if Blank(SectionText(section)) then Chunks(sections)
            else Chunks(sections) + [Chunk(|Chunks(sections)|, Strip(SectionText(section)), None)]
  {
    assert (sections + [section])[..|sections|] == sections;
  }

  method AppendChunk(chunks: seq<Chunk>, section: seq<string>, chunkIndex: nat, ghost sections: seq<seq<string>>)
    returns (r: seq<Chunk>)
    requires chunks == Chunks(sections) && chunkIndex == |chunks|
    ensures r == Chunks(sections + [section])
  {
    var chunkText := Strip(JoinLines(section));
    StripKeepsTheMiddle(JoinLines(section));
    ChunksSnoc(sections, section);
    r := if chunkText != "" then chunks + [Chunk(chunkIndex, chunkText, None)] else chunks;
  }

  /** Flushes a section: it becomes a chunk unless it is blank, and the index moves on with it. */
  method FlushSection(chunks: seq<Chunk>, section: seq<string>, chunkIndex: nat, ghost sections: seq<seq<string>>)
    returns (r: seq<Chunk>, newIndex: nat)
    requires chunks == Chunks(sections) && chunkIndex == |chunks|
    ensures r == Chunks(sections + [section]) && newIndex == |r|
  {
    r, newIndex := chunks, chunkIndex;
    var chunkText := Strip(JoinLines(section));
    StripKeepsTheMiddle(JoinLines(section));
    ChunksSnoc(sections, section);
    if chunkText != "" {
      r := AppendChunk(chunks, section, chunkIndex, sections);
      newIndex := chunkIndex + 1;
    }
  }

  // ----- YAML --------------------------------------------------------------------------

  /** A line that starts a document: three dashes, then white space only. */
  predicate StartsDocument(line: string) { |line| >= 3 && line[..3] == "---" && Blank(line[3..]) }

  lemma StartsDocumentMeaning(line: string)
    ensures StartsDocument(line) <==>
      && |line| >= 3 && line[0] == '-' && line[1] == '-' && line[2] == '-'
      && forall i :: 3 <= i < |line| ==> IsSpace(line[i])
  {
    if |line| >= 3 {
      assert line[..3] == [line[0], line[1], line[2]] && "---" == ['-', '-', '-'];
      forall i | 3 <= i < |line| ensures line[i] == line[3..][i - 3] {}
    }
  }

  // The scan is written for any notion of a line that starts a document.

  datatype Yaml = Yaml(done: seq<seq<string>>, cur: seq<string>, size: nat)

  function YamlFlush(st: Yaml): Yaml { Yaml(st.done + [st.cur], [], 0) }

  function YamlStep(starts: string -> bool, maxSize: nat, st: Yaml, line: string): Yaml {
    var a := if starts(line) && st.cur != [] then YamlFlush(st) else st;
    var b := if a.size + |line| + 1 > maxSize && a.cur != [] then YamlFlush(a) else a;
    Yaml(b.done, b.cur + [line], b.size + |line| + 1)
  }

  function YamlScan(starts: string -> bool, maxSize: nat, lines: seq<string>): Yaml {
    if lines == [] then Yaml([], [], 0)
    else YamlStep(starts, maxSize, YamlScan(starts, maxSize, lines[..|lines| - 1]), lines[|lines| - 1])
  }

  function YamlSections(starts: string -> bool, maxSize: nat, lines: seq<string>): seq<seq<string>> {
    var st := YamlScan(starts, maxSize, lines);
    if st.cur != [] then st.done + [st.cur] else st.done
  }

  lemma YamlScanStep(starts: string -> bool, maxSize: nat, lines: seq<string>, i: nat)
    requires i < |lines|
    ensures YamlScan(starts, maxSize, lines[..i + 1])
         == YamlStep(starts, maxSize, YamlScan(starts, maxSize, lines[..i]), lines[i])
  {
    assert lines[..i + 1][..i] == lines[..i];
  }

  method ChunkYaml(content: string, maxSize: nat, textSize: nat, textOverlap: nat) returns (chunks: seq<Chunk>)
    requires textOverlap < textSize
    ensures var sections := YamlSections(StartsDocument, maxSize, SplitLines(content));
      chunks == if Chunks(sections) != [] then Chunks(sections)
                else Render(content, WindowSpans(content, 0, textSize, textOverlap), 0)
  {
    chunks := [];
    var chunkIndex := 0;
    var lines := SplitLines(content);
    var currentDoc: seq<string>, currentSize: nat := [], 0;
    ghost var done: seq<seq<string>> := [];
    for i := 0 to |lines|
      invariant YamlScan(StartsDocument, maxSize, lines[..i]) == Yaml(done, currentDoc, currentSize)
      invariant chunks == Chunks(done) && chunkIndex == |chunks|
    {
      YamlScanStep(StartsDocument, maxSize, lines, i);
      var line := lines[i];
      if StartsDocument(line) && currentDoc != [] {
        chunks, chunkIndex := FlushSection(chunks, currentDoc, chunkIndex, done);
        done, currentDoc, currentSize := done + [currentDoc], [], 0;
      }
      if currentSize + |line| + 1 > maxSize && currentDoc != [] {
        chunks, chunkIndex := FlushSection(chunks, currentDoc, chunkIndex, done);
        done, currentDoc, currentSize := done + [currentDoc], [], 0;
      }
      currentDoc, currentSize := currentDoc + [line], currentSize + |line| + 1;
    }
    assert lines[..|lines|] == lines;
    if currentDoc != [] {
      chunks := AppendChunk(chunks, currentDoc, chunkIndex, done);
    }
    if chunks == [] {
      chunks := SlidingWindowChunk(content, textSize, textOverlap, 0);
    }
  }

  predicate YamlSectionOk(starts: string -> bool, maxSize: nat, s: seq<string>) {
    && s != []
    && (SizeOf(s) <= maxSize || |s| == 1)
    && forall j :: 1 <= j < |s| ==> !starts(s[j])
  }

  /** Why a section ended where it did: a document starts, or its next line would not have fitted. */
  predicate YamlBreak(starts: string -> bool, maxSize: nat, s: seq<string>, next: seq<string>) {
    next != [] && (starts(next[0]) || SizeOf(s) + |next[0]| + 1 > maxSize)
  }

  /** Every section is as it should be, and every cut between two of them was needed. */
  predicate YamlWellCut(starts: string -> bool, maxSize: nat, sections: seq<seq<string>>) {
    var n := |sections|;
    n == 0
    || (YamlSectionOk(starts, maxSize, sections[n - 1]) && YamlWellCut(starts, maxSize, sections[..n - 1])
        && (n >= 2 ==> YamlBreak(starts, maxSize, sections[n - 2], sections[n - 1])))
  }

  predicate YamlInv(starts: string -> bool, maxSize: nat, lines: seq<string>, st: Yaml) {
    && st.size == SizeOf(st.cur)
    && Flatten(st.done) + st.cur == lines
    && YamlWellCut(starts, maxSize, st.done)
    && (st.cur == [] ==> st.done == [])
    && (st.cur != [] ==> YamlSectionOk(starts, maxSize, st.cur))
    && (st.done != [] ==> YamlBreak(starts, maxSize, st.done[|st.done| - 1], st.cur))
  }

  lemma FlattenSnoc(sections: seq<seq<string>>, section: seq<string>)
    ensures Flatten(sections + [section]) == Flatten(sections) + section
  {
    assert (sections + [section])[..|sections|] == sections;
  }

  lemma SizeSnoc(section: seq<string>, line: string)
    ensures SizeOf(section + [line]) == SizeOf(section) + |line| + 1
  {
    assert (section + [line])[..|section|] == section;
  }

  lemma WellCutSnoc(starts: string -> bool, maxSize: nat, sections: seq<seq<string>>, last: seq<string>)
    requires YamlWellCut(starts, maxSize, sections) && YamlSectionOk(starts, maxSize, last)
    requires sections != [] ==> YamlBreak(starts, maxSize, sections[|sections| - 1], last)
    ensures YamlWellCut(starts, maxSize, sections + [last])
  {
    assert (sections + [last])[..|sections|] == sections;
  }

  /** What it means for each section and for each cut. */
  lemma {:induction false} WellCutMeaning(starts: string -> bool, maxSize: nat, sections: seq<seq<string>>, i: nat)
    requires YamlWellCut(starts, maxSize, sections) && i < |sections|
    ensures YamlSectionOk(starts, maxSize, sections[i])
    ensures i > 0 ==> YamlBreak(starts, maxSize, sections[i - 1], sections[i])
  {
    var n := |sections| - 1;
    if i < n { WellCutMeaning(starts, maxSize, sections[..n], i); }
  }

  /** A line that does not fit, or starts a document, ends the section and begins another. */
  lemma CutKeepsInv(starts: string -> bool, maxSize: nat, lines: seq<string>, st: Yaml, line: string)
    requires YamlInv(starts, maxSize, lines, st) && st.cur != [] && (starts(line) || st.size + |line| + 1 > maxSize)
    ensures YamlInv(starts, maxSize, lines + [line], Yaml(st.done + [st.cur], [line], |line| + 1))
  {
    FlattenSnoc(st.done, st.cur);
    WellCutSnoc(starts, maxSize, st.done, st.cur);
    SizeSnoc([], line);
    assert [] + [line] == [line];
  }

  lemma JoinKeepsInv(starts: string -> bool, maxSize: nat, lines: seq<string>, st: Yaml, line: string)
    requires YamlInv(starts, maxSize, lines, st) && (st.cur == [] || !(starts(line) || st.size + |line| + 1 > maxSize))
    ensures YamlInv(starts, maxSize, lines + [line], Yaml(st.done, st.cur + [line], st.size + |line| + 1))
  {
    SizeSnoc(st.cur, line);
    assert Flatten(st.done) + (st.cur + [line]) == Flatten(st.done) + st.cur + [line];
    assert st.cur != [] ==> (st.cur + [line])[0] == st.cur[0];
  }

  lemma YamlStepKeepsInv(starts: string -> bool, maxSize: nat, lines: seq<string>, st: Yaml, line: string,
                         all: seq<string>, after: Yaml)
    requires YamlInv(starts, maxSize, lines, st) && all == lines + [line]
    requires after == YamlStep(starts, maxSize, st, line)
    ensures YamlInv(starts, maxSize, all, after)
  {
    if st.cur != [] && (starts(line) || st.size + |line| + 1 > maxSize) {
      assert after == Yaml(st.done + [st.cur], [line], |line| + 1);
      CutKeepsInv(starts, maxSize, lines, st, line);
    } else {
      assert after == Yaml(st.done, st.cur + [line], st.size + |line| + 1);
      JoinKeepsInv(starts, maxSize, lines, st, line);
    }
  }

  lemma {:induction false} YamlScanInv(starts: string -> bool, maxSize: nat, lines: seq<string>)
    ensures YamlInv(starts, maxSize, lines, YamlScan(starts, maxSize, lines))
  {
    if lines != [] {
      var n := |lines| - 1;
      YamlScanInv(starts, maxSize, lines[..n]);
      assert lines[..n] + [lines[n]] == lines;
      YamlStepKeepsInv(starts, maxSize, lines[..n], YamlScan(starts, maxSize, lines[..n]), lines[n], lines,
                       YamlScan(starts, maxSize, lines));
    }
  }

  /** Sections partition the lines in order; each fits, or is a single line; a document start is
      always the first line of its section; and no cut is made that was not needed. */
  lemma YamlPartitions(starts: string -> bool, maxSize: nat, lines: seq<string>)
    ensures Flatten(YamlSections(starts, maxSize, lines)) == lines
    ensures YamlWellCut(starts, maxSize, YamlSections(starts, maxSize, lines))
  {
    YamlScanInv(starts, maxSize, lines);
    var st := YamlScan(starts, maxSize, lines);
    if st.cur != [] {
      FlattenSnoc(st.done, st.cur);
      WellCutSnoc(starts, maxSize, st.done, st.cur);
    }
  }

  // ----- from lines back to text -------------------------------------------------------

  function Texts(sections: seq<seq<string>>): seq<string> {
    if sections == [] then [] else Texts(sections[..|sections| - 1]) + [SectionText(sections[|sections| - 1])]
  }

  lemma {:induction false} JoinFlatten(sections: seq<seq<string>>)
    requires forall i :: 0 <= i < |sections| ==> sections[i] != []
    ensures JoinLines(Texts(sections)) == JoinLines(Flatten(sections))
    ensures |Texts(sections)| == |sections| && (sections != [] ==> Flatten(sections) != [])
  {
    if |sections| == 1 {
      assert sections[..0] == [] && Flatten(sections) == [] + sections[0] == sections[0];
      assert Texts(sections) == [SectionText(sections[0])];
    } else if |sections| > 1 {
      var n := |sections| - 1;
      JoinFlatten(sections[..n]);
      JoinConcat(Flatten(sections[..n]), sections[n]);
      JoinConcat(Texts(sections[..n]), [SectionText(sections[n])]);
    }
  }

  /** The text of a YAML document is the texts of its sections joined by newlines; since each chunk
      is such a text stripped, and only blank ones get no chunk, chunking loses white space only. */
  lemma YamlRebuildsContent(maxSize: nat, content: string)
    ensures JoinLines(Texts(YamlSections(StartsDocument, maxSize, SplitLines(content)))) == content
  {
    var sections := YamlSections(StartsDocument, maxSize, SplitLines(content));
    YamlPartitions(StartsDocument, maxSize, SplitLines(content));
    forall i | 0 <= i < |sections| ensures sections[i] != [] { WellCutMeaning(StartsDocument, maxSize, sections, i); }
    JoinFlatten(sections);
    JoinSplit(content);
  }

  /** The sections that get a chunk, in order. */
  function Kept(sections: seq<seq<string>>): seq<seq<string>> {
    if sections == [] then []
    else
      var before, last := Kept(sections[..|sections| - 1]), sections[|sections| - 1];
      if Blank(SectionText(last)) then before else before + [last]
  }

  /** Chunk i holds the i-th section that is not blank, stripped, and carries index i. */
  lemma {:induction false} ChunksAreKeptSections(sections: seq<seq<string>>)
    ensures |Chunks(sections)| == |Kept(sections)|
    ensures forall i :: 0 <= i < |Chunks(sections)| ==>
      Chunks(sections)[i] == Chunk(i, Strip(SectionText(Kept(sections)[i])), None)
  {
    if sections != [] {
      ChunksAreKeptSections(sections[..|sections| - 1]);
    }
  }

  lemma {:induction false} JoinBlank(lines: seq<string>)
    requires forall i :: 0 <= i < |lines| ==> Blank(lines[i])
    ensures Blank(JoinLines(lines))
  {
    if |lines| > 1 {
      JoinBlank(lines[1..]);
    }
  }

  lemma {:induction false} NoChunkMeansBlank(sections: seq<seq<string>>)
    requires Chunks(sections) == []
    ensures |Texts(sections)| == |sections|
    ensures forall i :: 0 <= i < |sections| ==> Blank(Texts(sections)[i])
  {
    if sections != [] {
      NoChunkMeansBlank(sections[..|sections| - 1]);
    }
  }

  lemma WindowMeansText(content: string, size: nat, overlap: nat)
    requires overlap < size
    ensures WindowSpans(content, 0, size, overlap) != [] ==> !Blank(content)
  {
    var spans := WindowSpans(content, 0, size, overlap);
    if spans != [] {
      SpansAreWindows(content, 0, size, overlap);
      var s := spans[0];
      assert s in spans;
      var i :| 0 <= i < s.hi - s.lo && !IsSpace(content[s.lo..s.hi][i]);
      assert !IsSpace(content[s.lo + i]);
    }
  }

  lemma NoChunkMeansBlankText(content: string, sections: seq<seq<string>>)
    requires Chunks(sections) == [] && JoinLines(Texts(sections)) == content
    ensures Blank(content)
  {
    NoChunkMeansBlank(sections);
    JoinBlank(Texts(sections));
  }

  /** The fallback of the YAML chunker is reached for blank documents only, and returns nothing. */
  lemma YamlFallbackIsEmpty(content: string, maxSize: nat, textSize: nat, textOverlap: nat)
    requires textOverlap < textSize
    requires Chunks(YamlSections(StartsDocument, maxSize, SplitLines(content))) == []
    ensures Blank(content) && WindowSpans(content, 0, textSize, textOverlap) == []
  {
    YamlRebuildsContent(maxSize, content);
    NoChunkMeansBlankText(content, YamlSections(StartsDocument, maxSize, SplitLines(content)));
    WindowMeansText(content, textSize, textOverlap);
  }
}
