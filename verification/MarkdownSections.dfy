/** Markdown sectioning: sections end at level-1 and level-2 headers and when they grow too long,
    and a section that grew too long hands its last lines on to the next one. */
module MarkdownSections {
  import opened PyText
  import opened SlidingWindow
  import opened Sectioning

  function LeadingHashes(line: string): (k: nat)
    ensures k <= |line|
  {
    if line == "" || line[0] != '#' then 0 else 1 + LeadingHashes(line[1..])
  }

  /** A line of one to six `#` followed by white space. */
  predicate IsHeader(line: string) {
    var k := LeadingHashes(line);
    1 <= k <= 6 && k < |line| && IsSpace(line[k])
  }

  predicate IsTopHeader(line: string) { IsHeader(line) && LeadingHashes(line) <= 2 }

  /** Such a line starts with one or two `#` and white space. */
  lemma TopHeaderMeaning(line: string)
    ensures IsTopHeader(line) <==>
      || (|line| >= 2 && line[0] == '#' && IsSpace(line[1]))
      || (|line| >= 3 && line[0] == '#' && line[1] == '#' && IsSpace(line[2]))
  {
    HashesBefore(line);
    if |line| >= 3 && line[0] == '#' && line[1] == '#' && line[2] == '#' {
      HashesBefore(line[1..]);
      HashesBefore(line[2..]);
    }
  }

  lemma {:induction false} HashesBefore(line: string)
    ensures var k := LeadingHashes(line);
      (forall i :: 0 <= i < k ==> line[i] == '#') && (k < |line| ==> line[k] != '#')
  {
    if line != "" && line[0] == '#' { HashesBefore(line[1..]); }
  }

  /** A section: its lines, of which the first `carry` were handed on by the section before it. */
  datatype Section = Section(lines: seq<string>, carry: nat) {
    function Fresh(): seq<string> { if carry <= |lines| then lines[carry..] else [] }
  }

  /** `dropped` counts lines that made a section overflow and were then put nowhere. */
  datatype Markdown = Markdown(done: seq<Section>, cur: Section, size: nat, dropped: nat)

  function Lines(sections: seq<Section>): (r: seq<seq<string>>)
    ensures |r| == |sections| && forall i :: 0 <= i < |r| ==> r[i] == sections[i].lines
  {
    seq(|sections|, i requires 0 <= i < |sections| => sections[i].lines)
  }

  function CarryCount(overlap: nat): nat { (overlap + 49) / 50 }

  /** `section[-overlap // 50:]`, the last ceil(overlap / 50) lines. */
  function Carried(section: seq<string>, overlap: nat): seq<string> {
    if CarryCount(overlap) < |section| then section[|section| - CarryCount(overlap)..] else section
  }

  /** One line is carried for every 50 characters of overlap, the last of them counted in full. */
  lemma CarriedMeaning(section: seq<string>, overlap: nat)
    requires overlap > 0
    ensures var n := |Carried(section, overlap)|;
      && n <= |section| && Carried(section, overlap) == section[|section| - n..]
      && (50 * (n - 1) < overlap <= 50 * n || (n == |section| && overlap > 50 * n))
  {
    var n := CarryCount(overlap);
    assert 50 * n <= overlap + 49 < 50 * n + 50;
    if n >= |section| { assert section[0..] == section; }
  }

  predicate Overflows(maxSize: nat, st: Markdown, line: string) {
    st.size + |line| + 1 > maxSize && st.cur.lines != []
  }

  // The scan is written for any notion of a top header, the line that always ends a section.

  function MarkdownStep(top: string -> bool, maxSize: nat, overlap: nat, st: Markdown, line: string): Markdown {
    if top(line) && st.cur.lines != [] then
      Markdown(st.done + [st.cur], Section([line], 0), |line|, st.dropped)
    else if Overflows(maxSize, st, line) then
      if overlap > 0 then
        var carried := Carried(st.cur.lines, overlap);
        Markdown(st.done + [st.cur], Section(carried + [line], |carried|), SizeOf(carried + [line]), st.dropped)
      else
        Markdown(st.done + [st.cur], Section([], 0), 0, st.dropped + 1)
    else
      Markdown(st.done, Section(st.cur.lines + [line], st.cur.carry), st.size + |line| + 1, st.dropped)
  }

  function MarkdownScan(top: string -> bool, maxSize: nat, overlap: nat, lines: seq<string>): Markdown {
    if lines == [] then Markdown([], Section([], 0), 0, 0)
    else MarkdownStep(top, maxSize, overlap, MarkdownScan(top, maxSize, overlap, lines[..|lines| - 1]),
                      lines[|lines| - 1])
  }

  function MarkdownSectionsOf(top: string -> bool, maxSize: nat, overlap: nat, lines: seq<string>): seq<Section> {
    var st := MarkdownScan(top, maxSize, overlap, lines);
    if st.cur.lines != [] then st.done + [st.cur] else st.done
  }

  lemma LinesSnoc(sections: seq<Section>, s: Section)
    ensures Lines(sections + [s]) == Lines(sections) + [s.lines]
  {
  }

  lemma MarkdownScanStep(top: string -> bool, maxSize: nat, overlap: nat, lines: seq<string>, i: nat)
    requires i < |lines|
    ensures MarkdownScan(top, maxSize, overlap, lines[..i + 1])
         == MarkdownStep(top, maxSize, overlap, MarkdownScan(top, maxSize, overlap, lines[..i]), lines[i])
  {
    assert lines[..i + 1][..i] == lines[..i];
  }

  /** What a flush leaves as the next section: the overlap and the line that did not fit, or nothing. */
  method NextSection(section: seq<string>, overlap: nat, line: string) returns (next: seq<string>, size: nat)
    ensures overlap > 0 ==> next == Carried(section, overlap) + [line]
    ensures overlap == 0 ==> next == []
    ensures size == SizeOf(next)
  {
    if overlap == 0 { return [], 0; }
    next := Carried(section, overlap) + [line];
    size := 0;
    for i := 0 to |next|
      invariant size == SizeOf(next[..i])
    {
      assert next[..i + 1][..i] == next[..i];
      size := size + |next[i]| + 1;
    }
    assert next[..|next|] == next;
  }

  method ChunkMarkdown(content: string, maxSize: nat, overlap: nat) returns (chunks: seq<Chunk>)
    ensures chunks == Chunks(Lines(MarkdownSectionsOf(IsTopHeader, maxSize, overlap, SplitLines(content))))
  {
    chunks := [];
    var lines := SplitLines(content);
    var currentSection: seq<string>, currentSize: nat, chunkIndex: nat := [], 0, 0;
    ghost var st := Markdown([], Section([], 0), 0, 0);
    for i := 0 to |lines|
      invariant st == MarkdownScan(IsTopHeader, maxSize, overlap, lines[..i])
      invariant currentSection == st.cur.lines && currentSize == st.size
      invariant chunks == Chunks(Lines(st.done)) && chunkIndex == |chunks|
    {
      MarkdownScanStep(IsTopHeader, maxSize, overlap, lines, i);
      LinesSnoc(st.done, st.cur);
      var line := lines[i];
      if IsTopHeader(line) && currentSection != [] {
        chunks, chunkIndex := FlushSection(chunks, currentSection, chunkIndex, Lines(st.done));
        currentSection, currentSize := [line], |line|;
      } else if currentSize + |line| + 1 > maxSize && currentSection != [] {
        chunks, chunkIndex := FlushSection(chunks, currentSection, chunkIndex, Lines(st.done));
        currentSection, currentSize := NextSection(currentSection, overlap, line);
      } else {
        currentSection, currentSize := currentSection + [line], currentSize + |line| + 1;
      }
      st := MarkdownStep(IsTopHeader, maxSize, overlap, st, line);
    }
    assert lines[..|lines|] == lines;
    if currentSection != [] {
      LinesSnoc(st.done, st.cur);
      chunks := AppendChunk(chunks, currentSection, chunkIndex, Lines(st.done));
    }
  }

  // ----- what the sections hold --------------------------------------------------------

  function FreshLines(sections: seq<Section>): seq<string> {
    if sections == [] then [] else FreshLines(sections[..|sections| - 1]) + sections[|sections| - 1].Fresh()
  }

  lemma FreshSnoc(sections: seq<Section>, s: Section)
    ensures FreshLines(sections + [s]) == FreshLines(sections) + s.Fresh()
  {
    assert (sections + [s])[..|sections|] == sections;
  }

  /** Among fresh lines a top header comes first, and a section it opens carries nothing over. */
  predicate HeadersFirst(top: string -> bool, s: Section) {
    s.carry <= |s.lines| && forall j :: s.carry <= j < |s.lines| && top(s.lines[j]) ==> j == 0
  }

  /** What a section carried over is the end of the section before it. */
  predicate CarriesFrom(overlap: nat, before: seq<Section>, s: Section) {
    && s.carry <= |s.lines|
    && (s.carry > 0 ==> before != [] && s.lines[..s.carry] == Carried(before[|before| - 1].lines, overlap))
  }

  predicate Follows(top: string -> bool, overlap: nat, before: seq<Section>, s: Section) {
    HeadersFirst(top, s) && s.Fresh() != [] && CarriesFrom(overlap, before, s)
  }

  predicate WellCarried(top: string -> bool, overlap: nat, sections: seq<Section>) {
    forall i :: 0 <= i < |sections| ==> Follows(top, overlap, sections[..i], sections[i])
  }

  lemma WellCarriedSnoc(top: string -> bool, overlap: nat, sections: seq<Section>, s: Section)
    requires WellCarried(top, overlap, sections) && Follows(top, overlap, sections, s)
    ensures WellCarried(top, overlap, sections + [s])
  {
    var all := sections + [s];
    forall i | 0 <= i < |all|
      ensures Follows(top, overlap, all[..i], all[i])
    {
      if i < |sections| {
        assert all[..i] == sections[..i] && all[i] == sections[i];
      } else {
        assert all[..i] == sections;
      }
    }
  }

  predicate CutsInv(top: string -> bool, overlap: nat, st: Markdown) {
    && WellCarried(top, overlap, st.done)
    && (if st.cur.lines != [] then Follows(top, overlap, st.done, st.cur) else st.cur.carry == 0)
  }

  lemma GrowKeepsFollows(top: string -> bool, overlap: nat, before: seq<Section>, cur: Section, line: string)
    requires if cur.lines != [] then Follows(top, overlap, before, cur) else cur.carry == 0
    requires top(line) ==> cur.lines == []
    ensures Follows(top, overlap, before, Section(cur.lines + [line], cur.carry))
  {
    var next := Section(cur.lines + [line], cur.carry);
    assert next.lines[..next.carry] == cur.lines[..cur.carry];
    assert next.Fresh() == cur.lines[cur.carry..] + [line];
    assert HeadersFirst(top, next);
  }

  lemma StepKeepsCuts(top: string -> bool, maxSize: nat, overlap: nat, st: Markdown, line: string, after: Markdown)
    requires CutsInv(top, overlap, st) && after == MarkdownStep(top, maxSize, overlap, st, line)
    ensures CutsInv(top, overlap, after)
  {
    if top(line) && st.cur.lines != [] {
      WellCarriedSnoc(top, overlap, st.done, st.cur);
      assert Section([line], 0).Fresh() == [line];
    } else if Overflows(maxSize, st, line) {
      WellCarriedSnoc(top, overlap, st.done, st.cur);
      var carried := Carried(st.cur.lines, overlap);
      var next := Section(carried + [line], |carried|);
      assert next.lines[..next.carry] == carried && next.Fresh() == [line];
    } else {
      GrowKeepsFollows(top, overlap, st.done, st.cur, line);
    }
  }

  /** The fresh lines of the sections, the one being built included. */
  function Got(st: Markdown): seq<string> { FreshLines(st.done) + st.cur.Fresh() }

  /** Every line so far is a fresh line of some section, unless lines were dropped. */
  predicate LinesInv(overlap: nat, lines: seq<string>, st: Markdown) {
    && |Got(st)| + st.dropped == |lines|
    && (st.dropped == 0 ==> Got(st) == lines)
    && (overlap > 0 ==> st.dropped == 0)
    && st.cur.carry <= |st.cur.lines|
  }

  lemma DropThenAppend<T>(a: seq<T>, c: nat, x: T)
    requires c <= |a|
    ensures (a + [x])[c..] == a[c..] + [x]
  {
  }

  lemma Reassociate<T>(a: seq<T>, b: seq<T>, c: seq<T>)
    ensures a + (b + c) == a + b + c
  {
  }

  lemma StepAddsOrDrops(top: string -> bool, maxSize: nat, overlap: nat, st: Markdown, line: string, next: Markdown)
    requires st.cur.carry <= |st.cur.lines| && next == MarkdownStep(top, maxSize, overlap, st, line)
    ensures next.cur.carry <= |next.cur.lines|
    ensures if next.dropped == st.dropped then Got(next) == Got(st) + [line]
            else overlap == 0 && next.dropped == st.dropped + 1 && Got(next) == Got(st)
  {
    if (top(line) || Overflows(maxSize, st, line)) && st.cur.lines != [] {
      FreshSnoc(st.done, st.cur);
      if top(line) {
        DropThenAppend([], 0, line);
      } else {
        var carried := Carried(st.cur.lines, overlap);
        DropThenAppend(carried, |carried|, line);
      }
    } else {
      DropThenAppend(st.cur.lines, st.cur.carry, line);
      Reassociate(FreshLines(st.done), st.cur.Fresh(), [line]);
    }
  }

  lemma StepKeepsLines(top: string -> bool, maxSize: nat, overlap: nat, lines: seq<string>, st: Markdown, line: string,
                       all: seq<string>, next: Markdown)
    requires LinesInv(overlap, lines, st) && all == lines + [line]
    requires next == MarkdownStep(top, maxSize, overlap, st, line)
    ensures LinesInv(overlap, all, next)
  {
    StepAddsOrDrops(top, maxSize, overlap, st, line, next);
  }

  lemma {:induction false} MarkdownScanInv(top: string -> bool, maxSize: nat, overlap: nat, lines: seq<string>)
    ensures CutsInv(top, overlap, MarkdownScan(top, maxSize, overlap, lines))
    ensures LinesInv(overlap, lines, MarkdownScan(top, maxSize, overlap, lines))
  {
    if lines != [] {
      var n := |lines| - 1;
      var st, next := MarkdownScan(top, maxSize, overlap, lines[..n]), MarkdownScan(top, maxSize, overlap, lines);
      assert lines == lines[..n] + [lines[n]];
      MarkdownScanInv(top, maxSize, overlap, lines[..n]);
      StepKeepsCuts(top, maxSize, overlap, st, lines[n], next);
      StepKeepsLines(top, maxSize, overlap, lines[..n], st, lines[n], lines, next);
    }
  }

  lemma FreshOfAll(top: string -> bool, maxSize: nat, overlap: nat, lines: seq<string>)
    ensures var st := MarkdownScan(top, maxSize, overlap, lines);
      FreshLines(MarkdownSectionsOf(top, maxSize, overlap, lines)) == Got(st)
  {
    var st := MarkdownScan(top, maxSize, overlap, lines);
    FreshSnoc(st.done, st.cur);
  }

  /** With the lines carried over taken away, the sections rebuild the document; top headers come
      first among fresh lines; and every line carried over repeats the end of the section before. */
  lemma MarkdownRebuildsLines(maxSize: nat, overlap: nat, lines: seq<string>)
    requires overlap > 0
    ensures FreshLines(MarkdownSectionsOf(IsTopHeader, maxSize, overlap, lines)) == lines
    ensures WellCarried(IsTopHeader, overlap, MarkdownSectionsOf(IsTopHeader, maxSize, overlap, lines))
  {
    MarkdownScanInv(IsTopHeader, maxSize, overlap, lines);
    FreshOfAll(IsTopHeader, maxSize, overlap, lines);
    var st := MarkdownScan(IsTopHeader, maxSize, overlap, lines);
    if st.cur.lines != [] { WellCarriedSnoc(IsTopHeader, overlap, st.done, st.cur); }
  }

  // ----- size --------------------------------------------------------------------------

  /** The text of the section is within the limit, or the section has at most one fresh line. */
  predicate Bounded(maxSize: nat, s: Section) { SizeOf(s.lines) <= maxSize + 1 || |s.Fresh()| <= 1 }

  predicate AllBounded(maxSize: nat, sections: seq<Section>) {
    forall i :: 0 <= i < |sections| ==> Bounded(maxSize, sections[i])
  }

  /** The size counted for a section misses one character at most, and is within the limit or of one line. */
  predicate Counted(maxSize: nat, s: Section, size: nat) {
    s.carry <= |s.lines| && SizeOf(s.lines) <= size + 1 && (size <= maxSize || |s.Fresh()| <= 1)
  }

  predicate SizeInv(maxSize: nat, st: Markdown) {
    Counted(maxSize, st.cur, st.size) && AllBounded(maxSize, st.done) && (st.cur.lines == [] ==> st.size == 0)
  }

  lemma GrownIsCounted(maxSize: nat, s: Section, size: nat, line: string)
    requires Counted(maxSize, s, size) && (size + |line| + 1 <= maxSize || s.lines == [])
    ensures Counted(maxSize, Section(s.lines + [line], s.carry), size + |line| + 1)
  {
    SizeSnoc(s.lines, line);
  }

  lemma CarriedIsCounted(maxSize: nat, carried: seq<string>, line: string)
    ensures Counted(maxSize, Section(carried + [line], |carried|), SizeOf(carried + [line]))
  {
    assert Section(carried + [line], |carried|).Fresh() == [line];
  }

  lemma HeaderIsCounted(maxSize: nat, line: string)
    ensures Counted(maxSize, Section([line], 0), |line|)
  {
    SizeSnoc([], line);
    assert [] + [line] == [line];
  }

  lemma StepKeepsSize(top: string -> bool, maxSize: nat, overlap: nat, st: Markdown, line: string, after: Markdown)
    requires SizeInv(maxSize, st) && after == MarkdownStep(top, maxSize, overlap, st, line)
    ensures SizeInv(maxSize, after)
  {
    assert Bounded(maxSize, st.cur);
    if top(line) && st.cur.lines != [] {
      HeaderIsCounted(maxSize, line);
    } else if Overflows(maxSize, st, line) {
      CarriedIsCounted(maxSize, Carried(st.cur.lines, overlap), line);
    } else {
      GrownIsCounted(maxSize, st.cur, st.size, line);
    }
  }

  lemma {:induction false} ScanKeepsSize(top: string -> bool, maxSize: nat, overlap: nat, lines: seq<string>)
    ensures SizeInv(maxSize, MarkdownScan(top, maxSize, overlap, lines))
  {
    if lines != [] {
      var n := |lines| - 1;
      ScanKeepsSize(top, maxSize, overlap, lines[..n]);
      StepKeepsSize(top, maxSize, overlap, MarkdownScan(top, maxSize, overlap, lines[..n]), lines[n],
                    MarkdownScan(top, maxSize, overlap, lines));
    }
  }

  lemma {:induction false} TextSize(section: seq<string>)
    requires section != []
    ensures |SectionText(section)| == SizeOf(section) - 1
  {
    var n := |section| - 1;
    if n > 0 {
      TextSize(section[..n]);
      JoinConcat(section[..n], section[n..]);
      assert section == section[..n] + section[n..] && section[n..] == [section[n]];
    }
  }

  /** With any overlap, the text of every section is at most `maxSize` long, or the section has a single
      fresh line. */
  lemma SectionsAreBounded(maxSize: nat, overlap: nat, lines: seq<string>, i: nat)
    requires i < |MarkdownSectionsOf(IsTopHeader, maxSize, overlap, lines)|
    ensures var s := MarkdownSectionsOf(IsTopHeader, maxSize, overlap, lines)[i];
      |SectionText(s.lines)| <= maxSize || |s.Fresh()| == 1
  {
    ScanKeepsSize(IsTopHeader, maxSize, overlap, lines);
    MarkdownScanInv(IsTopHeader, maxSize, overlap, lines);
    var st := MarkdownScan(IsTopHeader, maxSize, overlap, lines);
    var s := MarkdownSectionsOf(IsTopHeader, maxSize, overlap, lines)[i];
    assert Bounded(maxSize, s);
    if i < |st.done| { assert Follows(IsTopHeader, overlap, st.done[..i], st.done[i]); }
    TextSize(s.lines);
  }

  // ----- why a section ends ------------------------------------------------------------

  /** The size that decides about the next line: the newline of a header that closed a section is not counted. */
  function Decisive(isFirst: bool, s: Section): int {
    SizeOf(s.lines) - (if isFirst || s.carry > 0 then 0 else 1)
  }

  /** `next` opens with a top header and carries nothing over, or its first fresh line did not fit into `s`. */
  predicate CutFor(top: string -> bool, maxSize: nat, isFirst: bool, s: Section, next: Section) {
    && next.carry < |next.lines|
    && var line := next.lines[next.carry];
       if top(line) then next.carry == 0
       else next.carry > 0 && Decisive(isFirst, s) + |line| + 1 > maxSize
  }

  /** A fresh line behind the first fresh line of a section is no top header and still fitted. */
  predicate Fitted(top: string -> bool, maxSize: nat, isFirst: bool, s: Section) {
    && s.carry <= |s.lines|
    && forall j :: s.carry < j < |s.lines| ==>
      !top(s.lines[j]) && Decisive(isFirst, Section(s.lines[..j], s.carry)) + |s.lines[j]| + 1 <= maxSize
  }

  predicate CutWhereNeeded(top: string -> bool, maxSize: nat, sections: seq<Section>) {
    && (forall i :: 1 <= i < |sections| ==> CutFor(top, maxSize, i == 1, sections[i - 1], sections[i]))
    && (forall i :: 0 <= i < |sections| ==> Fitted(top, maxSize, i == 0, sections[i]))
  }

  lemma CutWhereNeededSnoc(top: string -> bool, maxSize: nat, sections: seq<Section>, s: Section)
    requires CutWhereNeeded(top, maxSize, sections) && Fitted(top, maxSize, sections == [], s)
    requires sections != [] ==> CutFor(top, maxSize, |sections| == 1, sections[|sections| - 1], s)
    ensures CutWhereNeeded(top, maxSize, sections + [s])
  {
  }

  lemma CutWhereNeededParts(top: string -> bool, maxSize: nat, sections: seq<Section>, s: Section)
    requires CutWhereNeeded(top, maxSize, sections + [s])
    ensures CutWhereNeeded(top, maxSize, sections) && Fitted(top, maxSize, sections == [], s)
    ensures sections != [] ==> CutFor(top, maxSize, |sections| == 1, sections[|sections| - 1], s)
  {
    var all := sections + [s];
    assert Fitted(top, maxSize, |sections| == 0, all[|sections|]);
    if sections != [] {
      assert CutFor(top, maxSize, |sections| == 1, all[|sections| - 1], all[|sections|]);
    }
    forall i | 1 <= i < |sections| ensures CutFor(top, maxSize, i == 1, sections[i - 1], sections[i]) {
      assert all[i - 1] == sections[i - 1] && all[i] == sections[i];
    }
    forall i | 0 <= i < |sections| ensures Fitted(top, maxSize, i == 0, sections[i]) {
      assert all[i] == sections[i];
    }
  }

  /** All sections with the one being built, unless it has no line yet. */
  function AllSections(st: Markdown): seq<Section> {
    if st.cur.lines != [] then st.done + [st.cur] else st.done
  }

  predicate NeedInv(top: string -> bool, maxSize: nat, st: Markdown) {
    && CutWhereNeeded(top, maxSize, AllSections(st))
    && (if st.cur.lines == [] then st == Markdown([], Section([], 0), 0, 0)
        else st.size == Decisive(st.done == [], st.cur))
  }

  lemma GrownIsFitted(top: string -> bool, maxSize: nat, isFirst: bool, s: Section, line: string)
    requires Fitted(top, maxSize, isFirst, s) && s.lines != [] && !top(line)
    requires Decisive(isFirst, s) + |line| + 1 <= maxSize
    ensures Fitted(top, maxSize, isFirst, Section(s.lines + [line], s.carry))
  {
    var lines := s.lines + [line];
    forall j | s.carry < j < |lines|
      ensures !top(lines[j]) && Decisive(isFirst, Section(lines[..j], s.carry)) + |lines[j]| + 1 <= maxSize
    {
      assert lines[..j] == if j < |s.lines| then s.lines[..j] else s.lines;
    }
  }

  lemma GrownIsCutFor(top: string -> bool, maxSize: nat, isFirst: bool, before: Section, s: Section, grown: Section)
    requires CutFor(top, maxSize, isFirst, before, s) && s.lines <= grown.lines && grown.carry == s.carry
    ensures CutFor(top, maxSize, isFirst, before, grown)
  {
    assert grown.lines[s.carry] == s.lines[s.carry];
  }

  lemma GrowKeepsNeed(top: string -> bool, maxSize: nat, st: Markdown, line: string, cur: Section)
    requires NeedInv(top, maxSize, st) && st.cur.lines != [] && !top(line) && !Overflows(maxSize, st, line)
    requires cur == Section(st.cur.lines + [line], st.cur.carry)
    ensures CutWhereNeeded(top, maxSize, st.done + [cur])
    ensures st.size + |line| + 1 == Decisive(st.done == [], cur)
  {
    CutWhereNeededParts(top, maxSize, st.done, st.cur);
    GrownIsFitted(top, maxSize, st.done == [], st.cur, line);
    SizeSnoc(st.cur.lines, line);
    if st.done != [] { GrownIsCutFor(top, maxSize, |st.done| == 1, st.done[|st.done| - 1], st.cur, cur); }
    CutWhereNeededSnoc(top, maxSize, st.done, cur);
  }

  lemma OneLineSize(line: string)
    ensures SizeOf([line]) == |line| + 1
  {
    SizeSnoc([], line);
    assert [] + [line] == [line];
  }

  lemma OpenKeepsNeed(top: string -> bool, maxSize: nat, st: Markdown, cur: Section)
    requires NeedInv(top, maxSize, st) && st.cur.lines != [] && cur.carry + 1 == |cur.lines|
    requires CutFor(top, maxSize, st.done == [], st.cur, cur)
    ensures CutWhereNeeded(top, maxSize, st.done + [st.cur] + [cur])
  {
    CutWhereNeededSnoc(top, maxSize, st.done + [st.cur], cur);
  }

  lemma StepKeepsNeed(top: string -> bool, maxSize: nat, overlap: nat, st: Markdown, line: string, after: Markdown)
    requires overlap > 0 && NeedInv(top, maxSize, st)
    requires after == MarkdownStep(top, maxSize, overlap, st, line)
    ensures NeedInv(top, maxSize, after)
  {
    if top(line) && st.cur.lines != [] {
      OneLineSize(line);
      OpenKeepsNeed(top, maxSize, st, after.cur);
    } else if Overflows(maxSize, st, line) {
      CarriedMeaning(st.cur.lines, overlap);
      OpenKeepsNeed(top, maxSize, st, after.cur);
    } else if st.cur.lines == [] {
      OneLineSize(line);
      CutWhereNeededSnoc(top, maxSize, [], after.cur);
      assert [] + [after.cur] == AllSections(after);
    } else {
      GrowKeepsNeed(top, maxSize, st, line, after.cur);
    }
  }

  lemma {:induction false} ScanKeepsNeed(top: string -> bool, maxSize: nat, overlap: nat, lines: seq<string>)
    requires overlap > 0
    ensures NeedInv(top, maxSize, MarkdownScan(top, maxSize, overlap, lines))
  {
    if lines != [] {
      var n := |lines| - 1;
      ScanKeepsNeed(top, maxSize, overlap, lines[..n]);
      StepKeepsNeed(top, maxSize, overlap, MarkdownScan(top, maxSize, overlap, lines[..n]), lines[n],
                    MarkdownScan(top, maxSize, overlap, lines));
    }
  }

  /** With an overlap, a section ends exactly where it must: at a top header, or at a line with which the size
      counted so far would exceed the limit; and then the section behind it opens with that line, after nothing
      carried over if it is a header and after something otherwise. */
  lemma SectionsAreCutWhereNeeded(maxSize: nat, overlap: nat, lines: seq<string>)
    requires overlap > 0
    ensures CutWhereNeeded(IsTopHeader, maxSize, MarkdownSectionsOf(IsTopHeader, maxSize, overlap, lines))
  {
    ScanKeepsNeed(IsTopHeader, maxSize, overlap, lines);
  }

  // ----- lines dropped without overlap -------------------------------------------------

  /** Some line overflows a section that it does not close as a top header. */
  predicate SomeLineOverflows(top: string -> bool, maxSize: nat, lines: seq<string>) {
    exists i :: 0 <= i < |lines| && !top(lines[i])
      && Overflows(maxSize, MarkdownScan(top, maxSize, 0, lines[..i]), lines[i])
  }

  lemma SomeLineOverflowsSnoc(top: string -> bool, maxSize: nat, lines: seq<string>, line: string)
    ensures SomeLineOverflows(top, maxSize, lines + [line]) <==>
      SomeLineOverflows(top, maxSize, lines)
      || (!top(line) && Overflows(maxSize, MarkdownScan(top, maxSize, 0, lines), line))
  {
    var all := lines + [line];
    assert forall i :: 0 <= i < |lines| ==> all[..i] == lines[..i] && all[i] == lines[i];
    assert all[..|lines|] == lines && all[|lines|] == line;
  }

  lemma {:induction false} DroppedIffOverflow(top: string -> bool, maxSize: nat, lines: seq<string>)
    ensures MarkdownScan(top, maxSize, 0, lines).dropped > 0 <==> SomeLineOverflows(top, maxSize, lines)
  {
    if lines != [] {
      var n := |lines| - 1;
      DroppedIffOverflow(top, maxSize, lines[..n]);
      SomeLineOverflowsSnoc(top, maxSize, lines[..n], lines[n]);
      assert lines[..n] + [lines[n]] == lines;
      if lines[..n] == [] { assert !SomeLineOverflows(top, maxSize, []); }
    }
  }

  /** Without overlap the line that makes a section overflow is put nowhere: the sections rebuild
      the document if and only if no line overflows one. `chunk_markdown` takes its overlap from a table
      that gives Markdown one of 500, so this is what the code would do with another table; with that one
      MarkdownRebuildsLines applies. */
  lemma MarkdownWithoutOverlap(maxSize: nat, lines: seq<string>)
    ensures FreshLines(MarkdownSectionsOf(IsTopHeader, maxSize, 0, lines)) == lines
      <==> !SomeLineOverflows(IsTopHeader, maxSize, lines)
  {
    MarkdownScanInv(IsTopHeader, maxSize, 0, lines);
    FreshOfAll(IsTopHeader, maxSize, 0, lines);
    DroppedIffOverflow(IsTopHeader, maxSize, lines);
  }
}
