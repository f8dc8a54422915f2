/** Python string operations that several components rely on: slicing that clamps its
    bounds, `str.strip`, and splitting and joining on newlines. */
module PyText {

  datatype Option<+T> = None | Some(value: T)

  /** Whether Python's `str.isspace` holds of a single character. */
  predicate IsSpace(c: char) {
    var u := c as int;
    || 9 <= u <= 13 || 28 <= u <= 32 || u == 0x85 || u == 0xA0 || u == 0x1680
    || 0x2000 <= u <= 0x200A || 0x2028 <= u <= 0x2029 || u == 0x202F || u == 0x205F || u == 0x3000
  }

  /** The 29 white-space characters. */
  const SPACES := "\t\n\U{0B}\U{0C}\r\U{1C}\U{1D}\U{1E}\U{1F} \U{85}\U{A0}\U{1680}"
    + "\U{2000}\U{2001}\U{2002}\U{2003}\U{2004}\U{2005}\U{2006}\U{2007}\U{2008}\U{2009}\U{200A}"
    + "\U{2028}\U{2029}\U{202F}\U{205F}\U{3000}"

  lemma SpacesAre(c: char)
    ensures IsSpace(c) <==> c in SPACES
  {
  }

  /** `not s.strip()`: nothing but white space. */
  predicate Blank(s: string) {
    forall i :: 0 <= i < |s| ==> IsSpace(s[i])
  }

  /** `s[lo:hi]` for bounds that are not negative. */
  function Slice<T>(s: seq<T>, lo: nat, hi: nat): (r: seq<T>)
    ensures lo <= hi <= |s| ==> r == s[lo..hi]
  {
    var h := if hi < |s| then hi else |s|;
    if lo < h then s[lo..h] else []
  }

  function LStrip(s: string): string {
    if s != "" && IsSpace(s[0]) then LStrip(s[1..]) else s
  }

  function RStrip(s: string): string {
    if s != "" && IsSpace(s[|s| - 1]) then RStrip(s[..|s| - 1]) else s
  }

  function Strip(s: string): string { RStrip(LStrip(s)) }

  lemma {:induction false} LStripProperties(s: string)
    ensures LStrip(s) == "" <==> Blank(s)
    ensures |LStrip(s)| <= |s| && LStrip(s) == s[|s| - |LStrip(s)|..] && Blank(s[..|s| - |LStrip(s)|])
    ensures LStrip(s) != "" ==> !IsSpace(LStrip(s)[0])
  {
    if s != "" && IsSpace(s[0]) {
      LStripProperties(s[1..]);
      var r := LStrip(s[1..]);
      assert s[..|s| - |r|] == [s[0]] + s[1..][..|s| - 1 - |r|];
    }
  }

  lemma {:induction false} RStripProperties(s: string)
    ensures RStrip(s) <= s && Blank(s[|RStrip(s)|..])
    ensures RStrip(s) != "" ==> !IsSpace(RStrip(s)[|RStrip(s)| - 1])
  {
    if s != "" && IsSpace(s[|s| - 1]) {
      RStripProperties(s[..|s| - 1]);
      var r := RStrip(s[..|s| - 1]);
      assert s[|r|..] == s[..|s| - 1][|r|..] + [s[|s| - 1]];
    }
  }

  /** Stripping removes white space at the two ends and nothing else. */
  lemma StripKeepsTheMiddle(s: string)
    ensures exists a: nat, b: nat :: a <= b <= |s| && Strip(s) == s[a..b] && Blank(s[..a]) && Blank(s[b..])
    ensures Strip(s) == "" <==> Blank(s)
    ensures Strip(s) != "" ==> !IsSpace(Strip(s)[0]) && !IsSpace(Strip(s)[|Strip(s)| - 1])
  {
    LStripProperties(s);
    RStripProperties(LStrip(s));
    var l := LStrip(s);
    var a := |s| - |l|;
    var r := RStrip(l);
    var b := a + |r|;
    assert s[b..] == l[|r|..];
    assert r == l[..|r|] == s[a..b];
  }

  const NEWLINE: char := '\n'

  /** `s.split('\n')`. */
  function SplitLines(s: string): (lines: seq<string>)
    ensures |lines| > 0
    ensures forall l :: l in lines ==> NEWLINE !in l
  {
    if s == "" then [""]
    else
      var rest := SplitLines(s[1..]);
      if s[0] == NEWLINE then [""] + rest else [[s[0]] + rest[0]] + rest[1..]
  }

  /** `'\n'.join(lines)`. */
  function JoinLines(lines: seq<string>): string {
    if |lines| == 0 then ""
    else if |lines| == 1 then lines[0]
    else lines[0] + [NEWLINE] + JoinLines(lines[1..])
  }

  lemma {:induction false} JoinSplit(s: string)
    ensures JoinLines(SplitLines(s)) == s
  {
    if s != "" {
      JoinSplit(s[1..]);
      var rest := SplitLines(s[1..]);
      if s[0] == NEWLINE {
        assert ([""] + rest)[1..] == rest;
      } else if |rest| > 1 {
        assert ([[s[0]] + rest[0]] + rest[1..])[1..] == rest[1..];
      }
      assert s == [s[0]] + s[1..];
    }
  }

  lemma {:induction false} JoinConcat(a: seq<string>, b: seq<string>)
    requires a != [] && b != []
    ensures JoinLines(a + b) == JoinLines(a) + [NEWLINE] + JoinLines(b)
  {
    if |a| == 1 {
      assert (a + b)[1..] == b;
    } else {
      assert (a + b)[1..] == a[1..] + b;
      JoinConcat(a[1..], b);
    }
  }

  // ----- UTF-8 -------------------------------------------------------------------------

  /** What n bytes hold of a character's number: 7 bits in one byte, and 11, 16 and 21 in two, three and four. */
  const HELD := [0, 0x80, 0x800, 0x1_0000, 0x20_0000]

  /** A character takes the fewest bytes that hold its number. */
  function CharBytes(c: char): (n: nat)
    ensures 1 <= n <= 4 && HELD[n - 1] <= c as int < HELD[n]
  {
    var u := c as int;
    if u < 0x80 then 1 else if u < 0x800 then 2 else if u < 0x1_0000 then 3 else 4
  }

  function Utf8Len(s: string): nat {
    if s == "" then 0 else CharBytes(s[0]) + Utf8Len(s[1..])
  }

  /** A longer text is not measured shorter. */
  ghost predicate Monotone(bytes: string -> nat) {
    forall s: string, lo: nat, hi: nat :: lo <= hi <= |s| ==> bytes(s[lo..hi]) <= bytes(s)
  }

  /** Every character takes a byte at least. */
  ghost predicate AtLeastLength(bytes: string -> nat) { forall s: string :: |s| <= bytes(s) }

  lemma Utf8LenCons(c: char, s: string)
    ensures Utf8Len([c] + s) == CharBytes(c) + Utf8Len(s)
  {
    assert ([c] + s)[0] == c && ([c] + s)[1..] == s;
  }

  lemma {:induction false} Utf8LenConcat(a: string, b: string)
    ensures Utf8Len(a + b) == Utf8Len(a) + Utf8Len(b)
  {
    if a == "" {
      assert a + b == b;
    } else {
      var rest := a[1..] + b;
      assert a + b == [a[0]] + rest;
      Utf8LenCons(a[0], rest);
      Utf8LenConcat(a[1..], b);
    }
  }

  lemma {:induction false} Utf8LenAtLeast(s: string)
    ensures |s| <= Utf8Len(s)
  {
    if s != "" { Utf8LenAtLeast(s[1..]); }
  }

  /** The length in UTF-8 is such a measure. */
  lemma Utf8IsMeasure()
    ensures Monotone(Utf8Len) && AtLeastLength(Utf8Len)
  {
    forall s: string, lo: nat, hi: nat | lo <= hi <= |s| ensures Utf8Len(s[lo..hi]) <= Utf8Len(s) {
      assert s == s[..lo] + s[lo..hi] + s[hi..];
      Utf8LenConcat(s[..lo] + s[lo..hi], s[hi..]);
      Utf8LenConcat(s[..lo], s[lo..hi]);
    }
    forall s: string ensures |s| <= Utf8Len(s) { Utf8LenAtLeast(s); }
  }
}
