/** Repairing text that was escaped once or twice too often: two rewriting passes over backslash sequences. */
module EscapeRepair {

  const BS: char := '\\'

  /** How the path's extension decides the policy. */
  datatype FileKind = Unstructured | StrictMarkup | HeuristicCode

  datatype Reason = NotApplicable | NoResidue | Repaired

  datatype Report = Report(content: string, changed: bool, replacements: nat, reason: Reason)

  /** The characters that are residue when they follow a backslash. */
  predicate IsEscape(c: char) { c == 'n' || c == 't' || c == 'r' || c == '\"' || c == '\'' }

  predicate IsQuote(c: char) { c == '\"' || c == '\'' }

  function Decode(c: char): char {
    if c == 'n' then '\n' else if c == 't' then '\t' else if c == 'r' then '\r' else c
  }

  // ----- the two regular expressions ---------------------------------------------------

  /** A backslash and an escape character, with no backslash before: `behind` says whether there is one. */
  predicate SingleAt(s: string, behind: bool) { !behind && |s| >= 2 && s[0] == BS && IsEscape(s[1]) }

  /** All such pairs replaced by the characters they stand for. */
  function Single(s: string, behind: bool): string {
    if s == "" then ""
    else if SingleAt(s, behind) then [Decode(s[1])] + Single(s[2..], false)
    else [s[0]] + Single(s[1..], s[0] == BS)
  }

  function CountSingle(s: string, behind: bool): nat {
    if s == "" then 0
    else if SingleAt(s, behind) then 1 + CountSingle(s[2..], false)
    else CountSingle(s[1..], s[0] == BS)
  }

  /** Two backslashes and an escape character. */
  predicate DoubleAt(s: string) { |s| >= 3 && s[0] == BS && s[1] == BS && IsEscape(s[2]) }

  function Double(s: string): string {
    if s == "" then ""
    else if DoubleAt(s) then [Decode(s[2])] + Double(s[3..])
    else [s[0]] + Double(s[1..])
  }

  function CountDouble(s: string): nat {
    if s == "" then 0
    else if DoubleAt(s) then 1 + CountDouble(s[3..])
    else CountDouble(s[1..])
  }

  /** `content.count('\n')`. */
  function RealNewlines(s: string): nat {
    if s == "" then 0 else (if s[0] == '\n' then 1 else 0) + RealNewlines(s[1..])
  }

  /** `content.count('\\n')`: the two characters, whatever comes before them. */
  function LiteralNewlines(s: string): nat {
    if |s| < 2 then 0
    else if s[0] == BS && s[1] == 'n' then 1 + LiteralNewlines(s[2..])
    else LiteralNewlines(s[1..])
  }

  // ----- detection and repair ----------------------------------------------------------

  predicate StrictMarkupHasResidue(content: string, residueCount: nat) {
    residueCount > 0 || CountDouble(content) > 0
  }

  predicate HeuristicCodeHasResidue(content: string, residueCount: nat) {
    if residueCount < 2 then false
    else if RealNewlines(content) == 0 then true
    else if LiteralNewlines(content) >= RealNewlines(content) then true
    else LiteralNewlines(content) == 0 && residueCount >= 4 && RealNewlines(content) < 2
  }

  predicate HasLiteralEscapeResidue(content: string, kind: FileKind) {
    if content == "" || kind == Unstructured then false
    else if kind == StrictMarkup then StrictMarkupHasResidue(content, CountSingle(content, false))
    else CountSingle(content, false) != 0 && HeuristicCodeHasResidue(content, CountSingle(content, false))
  }

  function RepairLiteralEscapes(content: string, kind: FileKind): Report {
    if kind == Unstructured then Report(content, false, 0, NotApplicable)
    else if !HasLiteralEscapeResidue(content, kind) then Report(content, false, 0, NoResidue)
    else
      var once := Single(content, false);
      var repaired := if kind == StrictMarkup then Double(once) else once;
      var count := CountSingle(content, false) + if kind == StrictMarkup then CountDouble(once) else 0;
      if repaired == content then Report(content, false, 0, NoResidue)
      else Report(repaired, true, count, Repaired)
  }

  // ----- lengths -----------------------------------------------------------------------

  lemma {:induction false} SingleLength(s: string, behind: bool)
    ensures |Single(s, behind)| + CountSingle(s, behind) == |s|
  {
    if s != "" {
      if SingleAt(s, behind) { SingleLength(s[2..], false); } else { SingleLength(s[1..], s[0] == BS); }
    }
  }

  lemma {:induction false} DoubleLength(s: string)
    ensures |Double(s)| + 2 * CountDouble(s) == |s|
  {
    if s != "" {
      if DoubleAt(s) { DoubleLength(s[3..]); } else { DoubleLength(s[1..]); }
    }
  }

  // ----- texts as runs of backslashes --------------------------------------------------

  /** A maximal run of `k` backslashes and the other character behind it. */
  datatype Run = Run(k: nat, c: char)

  function Backslashes(k: nat): (r: string)
    ensures |r| == k && forall i :: 0 <= i < k ==> r[i] == BS
  {
    seq(k, i => BS)
  }

  /** The text of some runs, with `tail` backslashes at the end. */
  function Render(runs: seq<Run>, tail: nat): string {
    if runs == [] then Backslashes(tail)
    else Backslashes(runs[0].k) + [runs[0].c] + Render(runs[1..], tail)
  }

  predicate ProperRuns(runs: seq<Run>) { forall i :: 0 <= i < |runs| ==> runs[i].c != BS }

  /** The runs of a text in front of which `k` backslashes have been read already. */
  function RunsFrom(k: nat, s: string): (r: (seq<Run>, nat))
    ensures ProperRuns(r.0)
    decreases |s|
  {
    if s == "" then ([], k)
    else if s[0] == BS then RunsFrom(k + 1, s[1..])
    else var (runs, tail) := RunsFrom(0, s[1..]); ([Run(k, s[0])] + runs, tail)
  }

  function RunsOf(s: string): seq<Run> { RunsFrom(0, s).0 }

  function TailOf(s: string): nat { RunsFrom(0, s).1 }

  lemma RenderCons(r: Run, runs: seq<Run>, tail: nat)
    ensures Render([r] + runs, tail) == Backslashes(r.k) + [r.c] + Render(runs, tail)
  {
    assert ([r] + runs)[0] == r && ([r] + runs)[1..] == runs;
  }

  lemma MoreBackslashes(k: nat, s: string)
    requires s != ""
    ensures Backslashes(k) + [s[0]] + s[1..] == Backslashes(k) + s
    ensures s[0] == BS ==> Backslashes(k + 1) + s[1..] == Backslashes(k) + s
    ensures Backslashes(0) + s[1..] == s[1..]
  {
  }

  lemma {:induction false} RenderRunsFrom(k: nat, s: string)
    ensures Render(RunsFrom(k, s).0, RunsFrom(k, s).1) == Backslashes(k) + s
    decreases |s|
  {
    if s == "" {
      assert Backslashes(k) + s == Backslashes(k);
    } else {
      MoreBackslashes(k, s);
      if s[0] == BS {
        RenderRunsFrom(k + 1, s[1..]);
      } else {
        var (runs, tail) := RunsFrom(0, s[1..]);
        RenderRunsFrom(0, s[1..]);
        RenderCons(Run(k, s[0]), runs, tail);
      }
    }
  }

  /** Every text is the text of its runs. */
  lemma RenderRunsOf(s: string)
    ensures Render(RunsOf(s), TailOf(s)) == s
  {
    RenderRunsFrom(0, s);
    assert Backslashes(0) + s == s;
  }

  function MapRuns(f: Run -> Run, runs: seq<Run>): (r: seq<Run>)
    ensures |r| == |runs| && forall i :: 0 <= i < |r| ==> r[i] == f(runs[i])
  {
    seq(|runs|, i requires 0 <= i < |runs| => f(runs[i]))
  }

  lemma MapRunsFirst(f: Run -> Run, runs: seq<Run>)
    requires runs != []
    ensures MapRuns(f, runs)[1..] == MapRuns(f, runs[1..])
  {
  }

  /** What the first pass does to a run: one backslash before an escape character goes. */
  const DROP_ONE: Run -> Run := (r: Run) => if IsEscape(r.c) && r.k == 1 then Run(0, Decode(r.c)) else r

  /** What the second pass does to a run: the last two of its backslashes go. */
  const DROP_TWO: Run -> Run := (r: Run) => if IsEscape(r.c) && r.k >= 2 then Run(r.k - 2, Decode(r.c)) else r

  /** What both do together: one or two backslashes go entirely, of three or more the last two. */
  const STRICT: Run -> Run :=
    (r: Run) => if IsEscape(r.c) && r.k >= 1 then Run(if r.k <= 2 then 0 else r.k - 2, Decode(r.c)) else r

  lemma {:induction false} SingleBehind(k: nat, c: char, rest: string)
    requires c != BS
    ensures Single(Backslashes(k) + [c] + rest, true) == Backslashes(k) + [c] + Single(rest, false)
  {
    var s := Backslashes(k) + [c] + rest;
    if k > 0 {
      assert s[1..] == Backslashes(k - 1) + [c] + rest;
      SingleBehind(k - 1, c, rest);
      OneMoreBackslash(k - 1, [c], Single(rest, false));
    } else {
      assert s == [c] + rest && s[1..] == rest;
      assert Backslashes(0) + [c] + Single(rest, false) == [c] + Single(rest, false);
    }
  }

  lemma SingleOnRun(r: Run, rest: string)
    requires r.c != BS
    ensures Single(Backslashes(r.k) + [r.c] + rest, false)
         == Backslashes(DROP_ONE(r).k) + [DROP_ONE(r).c] + Single(rest, false)
  {
    var s := Backslashes(r.k) + [r.c] + rest;
    if r.k == 0 {
      assert s == [r.c] + rest && s[1..] == rest;
      assert Backslashes(0) + [r.c] + Single(rest, false) == [r.c] + Single(rest, false);
    } else if r.k == 1 && IsEscape(r.c) {
      assert s[0] == BS && s[1] == r.c && s[2..] == rest;
      assert Backslashes(0) + [Decode(r.c)] + Single(rest, false) == [Decode(r.c)] + Single(rest, false);
    } else {
      assert s[0] == BS && s[1..] == Backslashes(r.k - 1) + [r.c] + rest;
      SingleBehind(r.k - 1, r.c, rest);
      OneMoreBackslash(r.k - 1, [r.c], Single(rest, false));
    }
  }

  lemma {:induction false} SingleOnTail(tail: nat, behind: bool)
    ensures Single(Backslashes(tail), behind) == Backslashes(tail)
  {
    if tail > 0 {
      assert Backslashes(tail)[1..] == Backslashes(tail - 1);
      SingleOnTail(tail - 1, true);
      assert [BS] + Backslashes(tail - 1) == Backslashes(tail);
    }
  }

  lemma {:induction false} SingleOnRuns(runs: seq<Run>, tail: nat)
    requires ProperRuns(runs)
    ensures Single(Render(runs, tail), false) == Render(MapRuns(DROP_ONE, runs), tail)
  {
    if runs == [] {
      SingleOnTail(tail, false);
    } else {
      SingleOnRun(runs[0], Render(runs[1..], tail));
      SingleOnRuns(runs[1..], tail);
      MapRunsFirst(DROP_ONE, runs);
    }
  }

  /** In a run the second pass can match only at the last two backslashes. */
  lemma DoubleSkips(k: nat, c: char, rest: string)
    requires c != BS && k >= 1 && (k != 2 || !IsEscape(c))
    ensures Double(Backslashes(k) + [c] + rest) == [BS] + Double(Backslashes(k - 1) + [c] + rest)
  {
    var s := Backslashes(k) + [c] + rest;
    assert s[0] == BS && s[1..] == Backslashes(k - 1) + [c] + rest;
    assert k >= 2 ==> s[2] == if k == 2 then c else BS;
  }

  lemma OneMoreBackslash(k: nat, a: string, b: string)
    ensures [BS] + (Backslashes(k) + a + b) == Backslashes(k + 1) + a + b
  {
  }

  lemma {:induction false} DoubleOnRun(r: Run, rest: string)
    requires r.c != BS
    ensures Double(Backslashes(r.k) + [r.c] + rest) == Backslashes(DROP_TWO(r).k) + [DROP_TWO(r).c] + Double(rest)
    decreases r.k
  {
    if r.k == 0 {
      assert Backslashes(0) + [r.c] + rest == [r.c] + rest && ([r.c] + rest)[1..] == rest;
      assert Backslashes(0) + [r.c] + Double(rest) == [r.c] + Double(rest);
    } else if r.k == 2 && IsEscape(r.c) {
      var s := Backslashes(2) + [r.c] + rest;
      assert s[0] == BS && s[1] == BS && s[2] == r.c && s[3..] == rest;
      assert Backslashes(0) + [Decode(r.c)] + Double(rest) == [Decode(r.c)] + Double(rest);
    } else {
      var less := Run(r.k - 1, r.c);
      DoubleSkips(r.k, r.c, rest);
      DoubleOnRun(less, rest);
      OneMoreBackslash(DROP_TWO(less).k, [DROP_TWO(r).c], Double(rest));
    }
  }

  lemma {:induction false} DoubleOnTail(tail: nat)
    ensures Double(Backslashes(tail)) == Backslashes(tail)
  {
    if tail > 0 {
      assert Backslashes(tail)[1..] == Backslashes(tail - 1);
      DoubleOnTail(tail - 1);
      assert [BS] + Backslashes(tail - 1) == Backslashes(tail);
    }
  }

  lemma {:induction false} DoubleOnRuns(runs: seq<Run>, tail: nat)
    requires ProperRuns(runs)
    ensures Double(Render(runs, tail)) == Render(MapRuns(DROP_TWO, runs), tail)
  {
    if runs == [] {
      DoubleOnTail(tail);
    } else {
      DoubleOnRun(runs[0], Render(runs[1..], tail));
      DoubleOnRuns(runs[1..], tail);
      MapRunsFirst(DROP_TWO, runs);
    }
  }

  /** Both passes of the strict repair, run by run. */
  lemma PassesOnRuns(runs: seq<Run>, tail: nat)
    requires ProperRuns(runs)
    ensures Double(Single(Render(runs, tail), false)) == Render(MapRuns(STRICT, runs), tail)
  {
    SingleOnRuns(runs, tail);
    DoubleOnRuns(MapRuns(DROP_ONE, runs), tail);
    assert MapRuns(DROP_TWO, MapRuns(DROP_ONE, runs)) == MapRuns(STRICT, runs);
  }
}
