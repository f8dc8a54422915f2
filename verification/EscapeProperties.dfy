/** What the escape repair guarantees: exactness, residue elimination, fixpoints, and inversion of over-escaping. */
module EscapeProperties {
  import opened EscapeRepair

  // ----- runs are unique ---------------------------------------------------------------

  lemma {:induction false} RunsFromRun(j: nat, r: Run, rest: string)
    requires r.c != BS
    ensures RunsFrom(j, Backslashes(r.k) + [r.c] + rest)
         == ([Run(j + r.k, r.c)] + RunsFrom(0, rest).0, RunsFrom(0, rest).1)
    decreases r.k
  {
    var s := Backslashes(r.k) + [r.c] + rest;
    if r.k == 0 {
      assert s == [r.c] + rest && s[1..] == rest;
    } else {
      assert s[0] == BS && s[1..] == Backslashes(r.k - 1) + [r.c] + rest;
      RunsFromRun(j + 1, Run(r.k - 1, r.c), rest);
    }
  }

  lemma {:induction false} RunsFromTail(j: nat, tail: nat)
    ensures RunsFrom(j, Backslashes(tail)) == ([], j + tail)
    decreases tail
  {
    if tail > 0 {
      assert Backslashes(tail)[1..] == Backslashes(tail - 1);
      RunsFromTail(j + 1, tail - 1);
    }
  }

  lemma {:induction false} RunsOfRender(runs: seq<Run>, tail: nat)
    requires ProperRuns(runs)
    ensures RunsOf(Render(runs, tail)) == runs && TailOf(Render(runs, tail)) == tail
  {
    if runs == [] {
      RunsFromTail(0, tail);
    } else {
      RunsOfRender(runs[1..], tail);
      RunsFromRun(0, runs[0], Render(runs[1..], tail));
    }
  }

  // ----- when a pass changes something -------------------------------------------------

  function RunsLength(runs: seq<Run>): nat {
    if runs == [] then 0 else runs[0].k + 1 + RunsLength(runs[1..])
  }

  lemma {:induction false} RenderLength(runs: seq<Run>, tail: nat)
    ensures |Render(runs, tail)| == RunsLength(runs) + tail
  {
    if runs != [] { RenderLength(runs[1..], tail); }
  }

  /** Some run carries residue: an escape character with a backslash in front. */
  predicate HasResidueRun(runs: seq<Run>) {
    exists i :: 0 <= i < |runs| && IsEscape(runs[i].c) && runs[i].k >= 1
  }

  predicate Shrinks(f: Run -> Run, runs: seq<Run>) { exists i :: 0 <= i < |runs| && f(runs[i]).k < runs[i].k }

  lemma {:induction false} MapShortens(f: Run -> Run, runs: seq<Run>)
    requires forall i :: 0 <= i < |runs| ==> f(runs[i]).k <= runs[i].k
    ensures RunsLength(MapRuns(f, runs)) <= RunsLength(runs)
    ensures RunsLength(MapRuns(f, runs)) < RunsLength(runs) <==> Shrinks(f, runs)
  {
    if runs != [] {
      var rest := runs[1..];
      MapShortens(f, rest);
      MapRunsFirst(f, runs);
      if Shrinks(f, rest) {
        var i :| 0 <= i < |rest| && f(rest[i]).k < rest[i].k;
        assert f(runs[i + 1]).k < runs[i + 1].k;
      }
      if i :| 0 <= i < |runs| && f(runs[i]).k < runs[i].k {
        if i > 0 { assert f(rest[i - 1]).k < rest[i - 1].k; }
      }
    }
  }

  lemma CountsAsShrinking(s: string)
    ensures CountSingle(s, false) > 0 <==> Shrinks(DROP_ONE, RunsOf(s))
    ensures CountDouble(s) > 0 <==> Shrinks(DROP_TWO, RunsOf(s))
  {
    var runs, tail := RunsOf(s), TailOf(s);
    RenderRunsOf(s);
    SingleLength(s, false);
    DoubleLength(s);
    SingleOnRuns(runs, tail);
    DoubleOnRuns(runs, tail);
    RenderLength(runs, tail);
    RenderLength(MapRuns(DROP_ONE, runs), tail);
    RenderLength(MapRuns(DROP_TWO, runs), tail);
    MapShortens(DROP_ONE, runs);
    MapShortens(DROP_TWO, runs);
  }

  /** Strict markup has residue exactly when some run of backslashes stands before an escape character. */
  lemma StrictResidueMeaning(s: string)
    ensures HasLiteralEscapeResidue(s, StrictMarkup) <==> HasResidueRun(RunsOf(s))
  {
    CountsAsShrinking(s);
    var runs := RunsOf(s);
    if i :| 0 <= i < |runs| && IsEscape(runs[i].c) && runs[i].k >= 1 {
      assert DROP_ONE(runs[i]).k < runs[i].k || DROP_TWO(runs[i]).k < runs[i].k;
    }
  }

  lemma StrictNoChange(runs: seq<Run>)
    requires !HasResidueRun(runs)
    ensures MapRuns(STRICT, runs) == runs
  {
  }

  lemma StrictShrinks(runs: seq<Run>, tail: nat)
    requires HasResidueRun(runs)
    ensures |Render(MapRuns(STRICT, runs), tail)| < |Render(runs, tail)|
  {
    var i :| 0 <= i < |runs| && IsEscape(runs[i].c) && runs[i].k >= 1;
    assert STRICT(runs[i]).k < runs[i].k;
    MapShortens(STRICT, runs);
    RenderLength(runs, tail);
    RenderLength(MapRuns(STRICT, runs), tail);
  }

  /** Strict repair is determined run by run: of a run before an escape character one or two
      backslashes go entirely, three or more lose two, and everything else stays. */
  lemma StrictRepairByRuns(s: string)
    ensures var r := RepairLiteralEscapes(s, StrictMarkup);
      && RunsOf(r.content) == MapRuns(STRICT, RunsOf(s)) && TailOf(r.content) == TailOf(s)
      && r.content == Render(MapRuns(STRICT, RunsOf(s)), TailOf(s))
      && (r.changed <==> HasLiteralEscapeResidue(s, StrictMarkup))
      && (r.changed <==> r.content != s)
  {
    var runs, tail := RunsOf(s), TailOf(s);
    RenderRunsOf(s);
    StrictResidueMeaning(s);
    PassesOnRuns(runs, tail);
    RunsOfRender(MapRuns(STRICT, runs), tail);
    if HasResidueRun(runs) { StrictShrinks(runs, tail); } else { StrictNoChange(runs); }
  }

  /** The report counts what was done: one character goes for each single replacement, two for each double one. */
  lemma ReplacementsAccountForLength(s: string, kind: FileKind)
    ensures var r := RepairLiteralEscapes(s, kind);
      var doubles := if r.changed && kind == StrictMarkup then CountDouble(Single(s, false)) else 0;
      |r.content| + r.replacements + doubles == |s| && doubles <= r.replacements
  {
    SingleLength(s, false);
    DoubleLength(Single(s, false));
  }

  // ----- code files --------------------------------------------------------------------

  /** One pass leaves no single-escape residue. */
  lemma {:induction false} SingleLeavesNoResidue(s: string, behind: bool)
    ensures CountSingle(Single(s, behind), behind) == 0
  {
    if s != "" {
      var out := Single(s, behind);
      if SingleAt(s, behind) {
        SingleLeavesNoResidue(s[2..], false);
        assert out[1..] == Single(s[2..], false);
      } else {
        SingleLeavesNoResidue(s[1..], s[0] == BS);
        assert out[1..] == Single(s[1..], s[0] == BS);
        assert s[0] == BS && |s| >= 2 ==> out[1] == s[1];
      }
    }
  }

  /** On code files the content changes exactly when residue is detected, and repairing twice is repairing once. */
  lemma CodeRepairIsIdempotent(s: string)
    ensures var r := RepairLiteralEscapes(s, HeuristicCode);
      && CountSingle(Single(s, false), false) == 0
      && (r.changed <==> HasLiteralEscapeResidue(s, HeuristicCode))
      && r.content == (if HasLiteralEscapeResidue(s, HeuristicCode) then Single(s, false) else s)
      && RepairLiteralEscapes(r.content, HeuristicCode).content == r.content
      && !RepairLiteralEscapes(r.content, HeuristicCode).changed
  {
    SingleLength(s, false);
    SingleLeavesNoResidue(s, false);
  }

  /** How many of the runs have the property. */
  function CountRuns(p: Run -> bool, runs: seq<Run>): nat {
    if runs == [] then 0 else (if p(runs[0]) then 1 else 0) + CountRuns(p, runs[1..])
  }

  const NEWLINES: Run -> bool := (r: Run) => r.c == '\n'

  const LITERAL_NEWLINES: Run -> bool := (r: Run) => r.k >= 1 && r.c == 'n'

  const SINGLE_ESCAPES: Run -> bool :=
    (r: Run) => r.k == 1 && (r.c == 'n' || r.c == 't' || r.c == 'r' || r.c == '"' || r.c == '\'')

  /** What the passes make of a run, character by character. */
  lemma RunMeaning(r: Run)
    ensures var escape := r.c == 'n' || r.c == 't' || r.c == 'r' || r.c == '"' || r.c == '\'';
      var c := if r.c == 'n' then '\n' else if r.c == 't' then '\t' else if r.c == 'r' then '\r' else r.c;
      && DROP_ONE(r) == (if escape && r.k == 1 then Run(0, c) else r)
      && STRICT(r) == (if !escape || r.k == 0 then r else if r.k <= 2 then Run(0, c) else Run(r.k - 2, c))
  {
  }

  lemma {:induction false} NewlinesInRun(k: nat, c: char, rest: string)
    requires c != BS
    ensures RealNewlines(Backslashes(k) + [c] + rest) == RealNewlines(rest) + if c == '\n' then 1 else 0
  {
    var s := Backslashes(k) + [c] + rest;
    if k == 0 {
      assert s == [c] + rest && s[1..] == rest;
    } else {
      assert s[0] == BS && s[1..] == Backslashes(k - 1) + [c] + rest;
      NewlinesInRun(k - 1, c, rest);
    }
  }

  lemma {:induction false} LiteralNewlinesInRun(k: nat, c: char, rest: string)
    requires c != BS
    ensures LiteralNewlines(Backslashes(k) + [c] + rest) == LiteralNewlines(rest) + if k >= 1 && c == 'n' then 1 else 0
  {
    var s := Backslashes(k) + [c] + rest;
    if k == 0 {
      assert s == [c] + rest && s[1..] == rest;
    } else if k == 1 {
      assert s[0] == BS && s[1] == c && s[1..] == [c] + rest && s[2..] == rest && s[1..][1..] == rest;
    } else {
      assert s[0] == BS && s[1] == BS && s[1..] == Backslashes(k - 1) + [c] + rest;
      LiteralNewlinesInRun(k - 1, c, rest);
    }
  }

  lemma {:induction false} NewlinesInTail(tail: nat)
    ensures RealNewlines(Backslashes(tail)) == 0 && LiteralNewlines(Backslashes(tail)) == 0
  {
    if tail > 0 {
      assert Backslashes(tail)[1..] == Backslashes(tail - 1);
      NewlinesInTail(tail - 1);
    }
  }

  lemma {:induction false} NewlinesOnRuns(runs: seq<Run>, tail: nat)
    requires ProperRuns(runs)
    ensures RealNewlines(Render(runs, tail)) == CountRuns(NEWLINES, runs)
    ensures LiteralNewlines(Render(runs, tail)) == CountRuns(LITERAL_NEWLINES, runs)
  {
    if runs == [] {
      NewlinesInTail(tail);
    } else {
      NewlinesOnRuns(runs[1..], tail);
      NewlinesInRun(runs[0].k, runs[0].c, Render(runs[1..], tail));
      LiteralNewlinesInRun(runs[0].k, runs[0].c, Render(runs[1..], tail));
    }
  }

  lemma {:induction false} DroppedLength(runs: seq<Run>)
    ensures RunsLength(MapRuns(DROP_ONE, runs)) + CountRuns(SINGLE_ESCAPES, runs) == RunsLength(runs)
  {
    if runs != [] {
      DroppedLength(runs[1..]);
      MapRunsFirst(DROP_ONE, runs);
    }
  }

  lemma SinglesOnRuns(s: string)
    ensures CountSingle(s, false) == CountRuns(SINGLE_ESCAPES, RunsOf(s))
    ensures Single(s, false) == Render(MapRuns(DROP_ONE, RunsOf(s)), TailOf(s))
  {
    var runs, tail := RunsOf(s), TailOf(s);
    RenderRunsOf(s);
    SingleLength(s, false);
    SingleOnRuns(runs, tail);
    RenderLength(runs, tail);
    RenderLength(MapRuns(DROP_ONE, runs), tail);
    DroppedLength(runs);
  }

  /** On code files the repair is known from the runs. Single escapes are taken for residue when there are
      two or more, and no newline, or as many literal newlines as real ones; with real newlines but no
      literal ones only when there are four escapes or more and one newline. All are replaced then, and
      otherwise none. */
  lemma CodeRepairByRuns(s: string)
    ensures var runs, r := RunsOf(s), RepairLiteralEscapes(s, HeuristicCode);
      var singles, newlines, literals :=
        CountRuns(SINGLE_ESCAPES, runs), CountRuns(NEWLINES, runs), CountRuns(LITERAL_NEWLINES, runs);
      var all := Render(MapRuns(DROP_ONE, runs), TailOf(s));
      && (singles < 2 ==> r.content == s && !r.changed)
      && (0 < literals < newlines ==> r.content == s && !r.changed)
      && (singles >= 2 && (newlines == 0 || literals >= newlines) ==> r.content == all && r.changed)
      && (singles >= 2 && literals == 0 && newlines == 1 && singles >= 4 ==> r.content == all && r.changed)
      && (literals == 0 && (newlines >= 2 || (newlines == 1 && singles < 4)) ==> r.content == s && !r.changed)
  {
    RenderRunsOf(s);
    SinglesOnRuns(s);
    NewlinesOnRuns(RunsOf(s), TailOf(s));
    SingleLength(s, false);
  }

  // ----- strict markup: repairing again ------------------------------------------------

  /** Three or more backslashes before a quote. */
  predicate DeepQuote(runs: seq<Run>) { exists i :: 0 <= i < |runs| && IsQuote(runs[i].c) && runs[i].k >= 3 }

  /** Strict repair is idempotent on exactly those texts that have no quote behind three or more backslashes. */
  lemma StrictIdempotentIffNoDeepQuote(s: string)
    ensures var once := RepairLiteralEscapes(s, StrictMarkup).content;
      RepairLiteralEscapes(once, StrictMarkup).content == once <==> !DeepQuote(RunsOf(s))
  {
    var once := RepairLiteralEscapes(s, StrictMarkup).content;
    StrictRepairByRuns(s);
    StrictRepairByRuns(once);
    StrictResidueMeaning(once);
    ResidueAfterStrict(RunsOf(s));
  }

  lemma ResidueAfterStrict(runs: seq<Run>)
    ensures HasResidueRun(MapRuns(STRICT, runs)) <==> DeepQuote(runs)
  {
    var mapped := MapRuns(STRICT, runs);
    if i :| 0 <= i < |runs| && IsQuote(runs[i].c) && runs[i].k >= 3 {
      assert IsEscape(mapped[i].c) && mapped[i].k >= 1;
    }
    if i :| 0 <= i < |mapped| && IsEscape(mapped[i].c) && mapped[i].k >= 1 {
      assert mapped[i] == STRICT(runs[i]);
      assert IsQuote(runs[i].c) && runs[i].k >= 3;
    }
  }

  /** Repairing until nothing changes. */
  function Settle(s: string): string
    decreases |s|
  {
    StrictRepairByRuns(s);
    var r := RepairLiteralEscapes(s, StrictMarkup);
    if r.changed then
      ReplacementsAccountForLength(s, StrictMarkup);
      StrictChangeShortens(s);
      Settle(r.content)
    else s
  }

  lemma StrictChangeShortens(s: string)
    ensures RepairLiteralEscapes(s, StrictMarkup).changed ==> |RepairLiteralEscapes(s, StrictMarkup).content| < |s|
  {
    StrictRepairByRuns(s);
    StrictResidueMeaning(s);
    RenderRunsOf(s);
    if HasResidueRun(RunsOf(s)) { StrictShrinks(RunsOf(s), TailOf(s)); }
  }

  /** What is left of a run in the end: quotes lose all their backslashes, other escape characters at most two. */
  const FINAL: Run -> Run := (r: Run) => if IsQuote(r.c) then Run(0, r.c) else STRICT(r)

  lemma FinalAfterStrict(runs: seq<Run>)
    ensures MapRuns(FINAL, MapRuns(STRICT, runs)) == MapRuns(FINAL, runs)
  {
  }

  lemma FinalWithoutResidue(runs: seq<Run>)
    requires !HasResidueRun(runs)
    ensures MapRuns(FINAL, runs) == runs
  {
  }

  /** Repeated repair reaches a fixpoint without residue, and the fixpoint is known run by run. */
  lemma {:induction false} SettleReachesFixpoint(s: string)
    ensures RunsOf(Settle(s)) == MapRuns(FINAL, RunsOf(s)) && TailOf(Settle(s)) == TailOf(s)
    ensures !HasLiteralEscapeResidue(Settle(s), StrictMarkup)
    ensures RepairLiteralEscapes(Settle(s), StrictMarkup).content == Settle(s)
    decreases |s|
  {
    StrictRepairByRuns(s);
    StrictResidueMeaning(s);
    var r, runs := RepairLiteralEscapes(s, StrictMarkup), RunsOf(s);
    if r.changed {
      StrictChangeShortens(s);
      SettleReachesFixpoint(r.content);
      FinalAfterStrict(runs);
    } else {
      FinalWithoutResidue(runs);
    }
  }

  // ----- repair inverts over-escaping --------------------------------------------------

  /** A character that escaping puts a backslash before. */
  predicate IsSpecial(c: char) { c == '\n' || c == '\t' || c == '\r' || IsQuote(c) }

  function Letter(c: char): (l: char)
    ensures IsSpecial(c) ==> IsEscape(l) && Decode(l) == c && l != BS
  {
    if c == '\n' then 'n' else if c == '\t' then 't' else if c == '\r' then 'r' else c
  }

  /** The text with `depth` backslashes put before the letter of every special character. */
  function Escaped(t: string, depth: nat): string {
    if t == "" then ""
    else (if IsSpecial(t[0]) then Backslashes(depth) + [Letter(t[0])] else [t[0]]) + Escaped(t[1..], depth)
  }

  function Specials(t: string): nat {
    if t == "" then 0 else (if IsSpecial(t[0]) then 1 else 0) + Specials(t[1..])
  }

  function JsonEscapeChar(c: char): string {
    if IsSpecial(c) then [BS, Letter(c)] else if c == BS then [BS, BS] else [c]
  }

  /** A serializer's escaping, backslashes included. */
  function JsonEscape(t: string): string {
    if t == "" then "" else JsonEscapeChar(t[0]) + JsonEscape(t[1..])
  }

  function EscapedRuns(t: string, depth: nat): (r: seq<Run>)
    ensures |r| == |t|
    ensures forall i :: 0 <= i < |r| ==> r[i] == if IsSpecial(t[i]) then Run(depth, Letter(t[i])) else Run(0, t[i])
  {
    seq(|t|, i requires 0 <= i < |t| => if IsSpecial(t[i]) then Run(depth, Letter(t[i])) else Run(0, t[i]))
  }

  lemma {:induction false} EscapedIsRuns(t: string, depth: nat)
    ensures Escaped(t, depth) == Render(EscapedRuns(t, depth), 0)
  {
    if t != "" {
      EscapedIsRuns(t[1..], depth);
      assert EscapedRuns(t, depth)[1..] == EscapedRuns(t[1..], depth);
      assert Backslashes(0) + [t[0]] == [t[0]];
    } else {
      assert Backslashes(0) == "";
    }
  }

  lemma {:induction false} PlainRuns(t: string)
    ensures Render(Plain(t), 0) == t
  {
    if t != "" {
      PlainRuns(t[1..]);
      assert Plain(t)[1..] == Plain(t[1..]);
      assert Backslashes(0) + [t[0]] + t[1..] == t;
    } else {
      assert Backslashes(0) == "";
    }
  }

  predicate NoBackslash(t: string) { BS !in t }

  /** On strict markup, repairing text that was escaped once, or twice with two backslashes, gives the text back. */
  lemma StrictRepairInvertsEscaping(t: string, depth: nat)
    requires NoBackslash(t) && 1 <= depth <= 2
    ensures RepairLiteralEscapes(Escaped(t, depth), StrictMarkup).content == t
  {
    EscapedIsRuns(t, depth);
    var runs := EscapedRuns(t, depth);
    assert ProperRuns(runs);
    RunsOfRender(runs, 0);
    StrictRepairByRuns(Escaped(t, depth));
    assert MapRuns(STRICT, runs) == Plain(t);
    PlainRuns(t);
  }

  lemma {:induction false} CountEscaped(t: string)
    requires NoBackslash(t)
    ensures CountSingle(Escaped(t, 1), false) == Specials(t)
    ensures Single(Escaped(t, 1), false) == t
    ensures RealNewlines(Escaped(t, 1)) == 0
  {
    if t != "" {
      var rest := Escaped(t[1..], 1);
      CountEscaped(t[1..]);
      var s := Escaped(t, 1);
      if IsSpecial(t[0]) {
        assert s[0] == BS && s[1] == Letter(t[0]) && s[2..] == rest && s[1..] == [Letter(t[0])] + rest;
        assert s[1..][1..] == rest;
        assert RealNewlines(s) == RealNewlines(s[1..]) == RealNewlines(rest);
      } else {
        assert s == [t[0]] + rest && s[1..] == rest;
      }
    }
  }

  /** On code files, repairing once-escaped text gives the text back unless exactly one character had to be escaped. */
  lemma CodeRepairInvertsEscaping(t: string)
    requires NoBackslash(t)
    ensures RepairLiteralEscapes(Escaped(t, 1), HeuristicCode).content == t <==> Specials(t) != 1
  {
    CountEscaped(t);
    SingleLength(Escaped(t, 1), false);
    CodeRepairIsIdempotent(Escaped(t, 1));
  }

  // ----- a serializer's escaping, applied twice ----------------------------------------

  predicate NoQuote(t: string) { forall i :: 0 <= i < |t| ==> !IsQuote(t[i]) }

  /** Escaping twice leaves two backslashes before a letter, and three before a quote. */
  function TwiceRuns(t: string): (r: seq<Run>)
    ensures |r| == |t|
    ensures forall i :: 0 <= i < |r| ==>
      r[i] == if IsQuote(t[i]) then Run(3, t[i]) else if IsSpecial(t[i]) then Run(2, Letter(t[i])) else Run(0, t[i])
  {
    seq(|t|, i requires 0 <= i < |t| =>
      if IsQuote(t[i]) then Run(3, t[i]) else if IsSpecial(t[i]) then Run(2, Letter(t[i])) else Run(0, t[i]))
  }

  lemma {:induction false} JsonEscapeConcat(a: string, b: string)
    ensures JsonEscape(a + b) == JsonEscape(a) + JsonEscape(b)
  {
    if a == "" {
      assert a + b == b;
    } else {
      JsonEscapeConcat(a[1..], b);
      assert (a + b)[0] == a[0] && (a + b)[1..] == a[1..] + b;
      var h := JsonEscapeChar(a[0]);
      assert h + (JsonEscape(a[1..]) + JsonEscape(b)) == h + JsonEscape(a[1..]) + JsonEscape(b);
    }
  }

  lemma JsonEscapeOne(c: char)
    requires c != BS
    ensures JsonEscape([c]) == if IsSpecial(c) then [BS, Letter(c)] else [c]
    ensures JsonEscape(JsonEscape([c]))
         == if IsQuote(c) then [BS, BS, BS, c] else if IsSpecial(c) then [BS, BS, Letter(c)] else [c]
  {
    assert [c][1..] == "";
    if IsSpecial(c) {
      var l := Letter(c);
      assert JsonEscape([BS, l]) == [BS, BS] + JsonEscape([l]) by { assert [BS, l][1..] == [l]; }
      assert [l][1..] == "";
    }
  }

  lemma TwiceOne(c: char)
    requires c != BS
    ensures var r := TwiceRuns([c])[0]; JsonEscape(JsonEscape([c])) == Backslashes(r.k) + [r.c]
  {
    JsonEscapeOne(c);
  }

  lemma {:induction false} TwiceIsRuns(t: string)
    requires NoBackslash(t)
    ensures JsonEscape(JsonEscape(t)) == Render(TwiceRuns(t), 0)
  {
    if t == "" {
      assert Backslashes(0) == "";
    } else {
      var first, rest := [t[0]], t[1..];
      assert t == first + rest;
      TwiceIsRuns(rest);
      JsonEscapeConcat(first, rest);
      JsonEscapeConcat(JsonEscape(first), JsonEscape(rest));
      TwiceOne(t[0]);
      assert TwiceRuns(t) == [TwiceRuns(first)[0]] + TwiceRuns(rest);
      RenderCons(TwiceRuns(first)[0], TwiceRuns(rest), 0);
    }
  }

  function Plain(t: string): (r: seq<Run>)
    ensures |r| == |t| && forall i :: 0 <= i < |r| ==> r[i] == Run(0, t[i])
  {
    seq(|t|, i requires 0 <= i < |t| => Run(0, t[i]))
  }

  lemma TwiceRunsRepaired(t: string)
    ensures MapRuns(STRICT, TwiceRuns(t)) == Plain(t) <==> NoQuote(t)
    ensures MapRuns(FINAL, TwiceRuns(t)) == Plain(t)
  {
    var mapped := MapRuns(STRICT, TwiceRuns(t));
    if i :| 0 <= i < |t| && IsQuote(t[i]) {
      assert mapped[i] == Run(1, t[i]) && Plain(t)[i] == Run(0, t[i]);
    }
  }

  /** Text that a serializer escaped twice comes back in one strict repair exactly when it has no
      quotes, since those end up behind three backslashes; repeated repair always gives it back. */
  lemma StrictRepairOfTwiceSerialized(t: string)
    requires NoBackslash(t)
    ensures RepairLiteralEscapes(JsonEscape(JsonEscape(t)), StrictMarkup).content == t <==> NoQuote(t)
    ensures Settle(JsonEscape(JsonEscape(t))) == t
  {
    var s := JsonEscape(JsonEscape(t));
    TwiceIsRuns(t);
    PlainRuns(t);
    RunsOfRender(TwiceRuns(t), 0);
    RunsOfRender(Plain(t), 0);
    TwiceRunsRepaired(t);
    StrictRepairByRuns(s);
    SettleReachesFixpoint(s);
    RenderRunsOf(Settle(s));
  }

  /** What the report says: a file of any other kind is left alone, and otherwise something was replaced, and
      counted, exactly when the content changed. */
  lemma ReportMeaning(s: string, kind: FileKind)
    ensures var r := RepairLiteralEscapes(s, kind);
      && (kind == Unstructured ==> r == Report(s, false, 0, NotApplicable))
      && (r.changed <==> r.content != s) && (r.changed <==> r.replacements > 0) && (r.changed <==> r.reason == Repaired)
      && (kind != Unstructured && !r.changed ==> r.reason == NoResidue)
  {
    SingleLength(s, false);
    DoubleLength(Single(s, false));
    ReplacementsAccountForLength(s, kind);
    if kind == StrictMarkup {
      StrictRepairByRuns(s);
      StrictChangeShortens(s);
    }
  }
}
