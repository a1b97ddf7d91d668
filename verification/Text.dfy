/**
 Python text primitives shared by the chunker, the table printer and the text cleaner:
 `str.isspace`, `str.strip`, `str.join`, `str.splitlines` and the paragraph separator
 `re.split(r"\n\s*\n", ...)`.
 */
module Text {
  import opened Sequences

  /** The characters for which `str.isspace` holds, which are also those `\s` matches. */
  predicate IsSpace(c: char) {
    || c == ' '
    || '\t' <= c <= '\r'
    || '\U{1C}' <= c <= '\U{1F}'
    || c == '\U{85}'
    || c == '\U{A0}'
    || c == '\U{1680}'
    || '\U{2000}' <= c <= '\U{200A}'
    || c == '\U{2028}'
    || c == '\U{2029}'
    || c == '\U{202F}'
    || c == '\U{205F}'
    || c == '\U{3000}'
  }

  /** The characters at which `str.splitlines` breaks a line. */
  predicate IsLineBreak(c: char) {
    || '\n' <= c <= '\r'
    || '\U{1C}' <= c <= '\U{1E}'
    || c == '\U{85}'
    || c == '\U{2028}'
    || c == '\U{2029}'
  }

  predicate Blank(s: string) {
    forall i | 0 <= i < |s| :: IsSpace(s[i])
  }

  /** No whitespace at either end: the fixed points of `Strip`. */
  predicate Stripped(s: string) {
    s != "" ==> !IsSpace(s[0]) && !IsSpace(s[|s| - 1])
  }

  function LStrip(s: string): (r: string)
    ensures |r| <= |s|
    ensures r != "" ==> !IsSpace(r[0]) && r[|r| - 1] == s[|s| - 1]
  {
    if s != "" && IsSpace(s[0]) then LStrip(s[1..]) else s
  }

  function RStrip(s: string): (r: string)
    ensures |r| <= |s|
    ensures r != "" ==> !IsSpace(r[|r| - 1]) && r[0] == s[0]
  {
    if s != "" && IsSpace(s[|s| - 1]) then RStrip(s[..|s| - 1]) else s
  }

  function Strip(s: string): (r: string)
    ensures Stripped(r)
    ensures |r| <= |s|
  {
    RStrip(LStrip(s))
  }

  /** The text with all whitespace removed. */
  function NonSpace(s: string): string {
    if s == "" then "" else (if IsSpace(s[0]) then "" else [s[0]]) + NonSpace(s[1..])
  }

  lemma {:induction false} LStripSuffix(s: string)
    ensures LStrip(s) == s[|s| - |LStrip(s)|..]
    ensures Blank(s[..|s| - |LStrip(s)|])
  {
    hide IsSpace, Blank;
    var n := |s| - |LStrip(s)|;
    if s != "" && IsSpace(s[0]) {
      LStripSuffix(s[1..]);
      BlankCons(s[0], s[1..][..n - 1]);
      assert s[..n] == [s[0]] + s[1..][..n - 1];
    } else {
      BlankNothing();
      assert s[..n] == "";
    }
  }

  lemma BlankNothing()
    ensures Blank("")
  {
  }

  lemma BlankCons(c: char, rest: string)
    requires IsSpace(c) && Blank(rest)
    ensures Blank([c] + rest)
  {
    hide IsSpace;
  }

  lemma {:induction false} NonSpaceBlank(s: string)
    ensures NonSpace(s) == "" <==> Blank(s)
  {
    if s != "" {
      NonSpaceBlank(s[1..]);
      assert s == [s[0]] + s[1..];
    }
  }

  function Join(sep: string, parts: seq<string>): string {
    if parts == [] then ""
    else if |parts| == 1 then parts[0]
    else parts[0] + sep + Join(sep, parts[1..])
  }

  lemma {:induction false} JoinConcat(sep: string, a: seq<string>, b: seq<string>)
    requires a != [] && b != []
    ensures Join(sep, a + b) == Join(sep, a) + sep + Join(sep, b)
  {
    if |a| == 1 {
      assert (a + b)[1..] == b;
    } else {
      JoinConcat(sep, a[1..], b);
      assert (a + b)[1..] == a[1..] + b;
      assert a[0] + sep + (Join(sep, a[1..]) + sep + Join(sep, b)) ==
        a[0] + sep + Join(sep, a[1..]) + sep + Join(sep, b);
    }
  }

  lemma NonSpaceConcat(a: string, b: string)
    ensures NonSpace(a + b) == NonSpace(a) + NonSpace(b)
  {
    if a == "" {
      assert a + b == b;
    } else {
      assert (a + b)[1..] == a[1..] + b;
      NonSpaceConcat(a[1..], b);
    }
  }

  lemma NonSpaceConcat3(a: string, b: string, c: string)
    ensures NonSpace(a + b + c) == NonSpace(a) + NonSpace(b) + NonSpace(c)
  {
    NonSpaceConcat(a + b, c);
    NonSpaceConcat(a, b);
  }

  lemma {:induction false} JoinNonSpace(sep: string, parts: seq<string>)
    requires Blank(sep)
    ensures NonSpace(Join(sep, parts)) == NonSpace(Flatten(parts))
  {
    if |parts| == 1 {
      assert Flatten(parts) == parts[0];
    } else if parts != [] {
      JoinNonSpace(sep, parts[1..]);
      NonSpaceBlank(sep);
      NonSpaceConcat3(parts[0], sep, Join(sep, parts[1..]));
      NonSpaceConcat(parts[0], Flatten(parts[1..]));
    }
  }

  /** Cutting blank text out of the middle of a text loses whitespace only. */
  lemma NonSpaceCut(s: string, i: nat, j: nat)
    requires i <= j <= |s| && Blank(s[i..j])
    ensures NonSpace(s) == NonSpace(s[..i]) + NonSpace(s[j..])
  {
    hide NonSpace, Blank;
    assert s == s[..i] + s[i..j] + s[j..];
    NonSpaceBlank(s[i..j]);
    NonSpaceConcat3(s[..i], s[i..j], s[j..]);
    assert NonSpace(s[..i]) + "" == NonSpace(s[..i]);
  }

  lemma {:induction false} LStripNonSpace(s: string)
    ensures NonSpace(LStrip(s)) == NonSpace(s)
  {
    if s != "" && IsSpace(s[0]) {
      LStripNonSpace(s[1..]);
    }
  }

  lemma {:induction false} RStripNonSpace(s: string)
    ensures NonSpace(RStrip(s)) == NonSpace(s)
  {
    if s != "" && IsSpace(s[|s| - 1]) {
      var n := |s| - 1;
      RStripNonSpace(s[..n]);
      NonSpaceConcat(s[..n], [s[n]]);
      assert s == s[..n] + [s[n]];
    }
  }

  lemma StripNonSpace(s: string)
    ensures NonSpace(Strip(s)) == NonSpace(s)
    ensures Strip(s) == "" <==> Blank(s)
  {
    LStripNonSpace(s);
    RStripNonSpace(LStrip(s));
    NonSpaceBlank(s);
    NonSpaceBlank(Strip(s));
  }

  lemma StripFixed(s: string)
    requires Stripped(s)
    ensures Strip(s) == s
  {
  }

  /** Stripping undoes blank padding around a stripped text. */
  lemma StripPadded(before: string, s: string, after: string)
    requires Blank(before) && Blank(after) && Stripped(s) && s != ""
    ensures Strip(before + s + after) == s
  {
    if before != "" {
      assert (before + s + after)[1..] == before[1..] + s + after;
      StripPadded(before[1..], s, after);
    } else {
      assert before + s + after == s + after;
      RStripAfter(s, after);
    }
  }

  lemma RStripAfter(s: string, after: string)
    requires Blank(after) && Stripped(s) && s != ""
    ensures RStrip(s + after) == s
  {
    if after != "" {
      assert (s + after)[..|s + after| - 1] == s + after[..|after| - 1];
      RStripAfter(s, after[..|after| - 1]);
    } else {
      assert s + after == s;
    }
  }

  // ---------------------------------------------------------------- lines

  /** `replace("\r\n", "\n").replace("\r", "\n")` in one pass. */
  function UnifyNewlines(s: string): (r: string)
    ensures '\r' !in r
  {
    if s == "" then ""
    else if s[0] == '\r' && |s| > 1 && s[1] == '\n' then "\n" + UnifyNewlines(s[2..])
    else (if s[0] == '\r' then "\n" else [s[0]]) + UnifyNewlines(s[1..])
  }

  lemma {:induction false} UnifyNewlinesNonSpace(s: string)
    ensures NonSpace(UnifyNewlines(s)) == NonSpace(s)
  {
    if s != "" {
      if s[0] == '\r' && |s| > 1 && s[1] == '\n' {
        UnifyNewlinesNonSpace(s[2..]);
        assert s[1..][1..] == s[2..];
      } else {
        UnifyNewlinesNonSpace(s[1..]);
      }
    }
  }

  lemma UnifyNewlinesFixed(s: string)
    requires '\r' !in s
    ensures UnifyNewlines(s) == s
  {
  }

  /** The index of the first line break, or the length when there is none. */
  function FirstBreak(s: string): (k: nat)
    ensures k <= |s|
    ensures forall i | 0 <= i < k :: !IsLineBreak(s[i])
    ensures k < |s| ==> IsLineBreak(s[k])
  {
    if s == "" || IsLineBreak(s[0]) then 0 else 1 + FirstBreak(s[1..])
  }

  /** `str.splitlines`, for text whose carriage returns have been replaced. */
  function SplitLines(s: string): seq<string> {
    if s == "" then []
    else
      var k := FirstBreak(s);
      [s[..k]] + if k == |s| then [] else SplitLines(s[k + 1..])
  }

  predicate OneLine(s: string) {
    forall i | 0 <= i < |s| :: !IsLineBreak(s[i])
  }

  lemma {:induction false} SplitLinesOneLine(s: string)
    ensures forall k | 0 <= k < |SplitLines(s)| :: OneLine(SplitLines(s)[k])
  {
    if s != "" && FirstBreak(s) < |s| {
      SplitLinesOneLine(s[FirstBreak(s) + 1..]);
    }
  }

  /** Splitting off a first piece and a blank separator, given the same of the rest. */
  lemma SplitOffNonSpace(s: string, i: nat, j: nat, tail: seq<string>)
    requires i <= j <= |s| && Blank(s[i..j])
    requires NonSpace(Flatten(tail)) == NonSpace(s[j..])
    ensures NonSpace(Flatten([s[..i]] + tail)) == NonSpace(s)
  {
    FlattenCons(s[..i], tail);
    NonSpaceConcat(s[..i], Flatten(tail));
    NonSpaceCut(s, i, j);
  }

  /** Breaking a text into lines loses whitespace only. */
  lemma {:induction false} SplitLinesNonSpace(s: string)
    ensures NonSpace(Flatten(SplitLines(s))) == NonSpace(s)
  {
    hide NonSpace, Flatten, FirstBreak, IsLineBreak, IsSpace, Blank, SplitLines;
    SplitLinesStep(s);
    var k := FirstBreak(s);
    if s == "" {
      NothingToSplit();
    } else if k < |s| {
      SplitLinesNonSpace(s[k + 1..]);
      BreakIsBlank(s[k]);
      assert s[k..k + 1] == [s[k]];
      SplitOffNonSpace(s, k, k + 1, SplitLines(s[k + 1..]));
    } else {
      NothingToSplit();
      BlankNothing();
      assert s[k..] == s[k..k] == "";
      SplitOffNonSpace(s, k, k, []);
    }
  }

  lemma SplitLinesStep(s: string)
    ensures SplitLines(s) ==
      if s == "" then []
      else [s[..FirstBreak(s)]] + if FirstBreak(s) == |s| then [] else SplitLines(s[FirstBreak(s) + 1..])
  {
    hide FirstBreak;
  }

  lemma BreakIsBlank(brk: char)
    requires IsLineBreak(brk)
    ensures Blank([brk])
  {
  }

  lemma NothingToSplit()
    ensures NonSpace(Flatten<char>([])) == NonSpace("")
  {
  }

  /** A line that ends in a break is split off whole. */
  lemma SplitLinesCons(line: string, brk: char, rest: string)
    requires OneLine(line) && IsLineBreak(brk)
    ensures SplitLines(line + [brk] + rest) == [line] + SplitLines(rest)
  {
    var s := line + [brk] + rest;
    assert s[|line|] == brk;
    assert forall i | 0 <= i < |line| :: s[i] == line[i];
    assert FirstBreak(s) == |line|;
    assert s[..|line|] == line && s[|line| + 1..] == rest;
  }

  lemma SplitLinesLast(line: string)
    requires OneLine(line) && line != ""
    ensures SplitLines(line) == [line]
  {
    assert FirstBreak(line) == |line|;
    assert line[..|line|] == line;
  }

  // ---------------------------------------------------------------- paragraphs

  function SpaceRun(s: string): (n: nat)
    ensures n <= |s|
    ensures Blank(s[..n])
    ensures n < |s| ==> !IsSpace(s[n])
  {
    if s != "" && IsSpace(s[0]) then 1 + SpaceRun(s[1..]) else 0
  }

  /** One past the last newline among the first `n` characters, 0 when there is none. */
  function AfterLastNewline(s: string, n: nat): (j: nat)
    requires n <= |s|
    ensures j <= n
    ensures j > 0 ==> s[j - 1] == '\n'
    ensures forall i | j <= i < n :: s[i] != '\n'
  {
    if n == 0 then 0 else if s[n - 1] == '\n' then n else AfterLastNewline(s, n - 1)
  }

  /** The length of the match of `\n\s*\n` at the start of `s`, 0 when there is no match. */
  function GapLength(s: string): (n: nat)
    ensures n <= |s| && Blank(s[..n])
  {
    if s != "" && s[0] == '\n' then
      var n := AfterLastNewline(s, SpaceRun(s));
      if n >= 2 then n else 0
    else 0
  }

  /** The index of the leftmost match of `\n\s*\n`, or the length when there is none. */
  function FirstGap(s: string): (k: nat)
    ensures k <= |s|
    ensures k < |s| ==> GapLength(s[k..]) >= 2
  {
    if s == "" || GapLength(s) > 0 then
      assert s[0..] == s;
      0
    else
      var k := 1 + FirstGap(s[1..]);
      assert k < |s| ==> s[k..] == s[1..][k - 1..];
      k
  }

  /** The leftmost match `s[k..j]` of `\n\s*\n`; both ends are the length when there is none. */
  function NextGap(s: string): (gap: (nat, nat))
    ensures gap.0 <= gap.1 <= |s| && Blank(s[gap.0..gap.1])
    ensures gap.0 < |s| ==> gap.0 < gap.1
  {
    var k := FirstGap(s);
    GapAt(s, k);
    (k, k + GapLength(s[k..]))
  }

  lemma GapAt(s: string, k: nat)
    requires k <= |s|
    ensures var n := GapLength(s[k..]); k + n <= |s| && Blank(s[k..k + n])
  {
    hide Blank, GapLength;
    var n := GapLength(s[k..]);
    assert s[k..k + n] == s[k..][..n];
  }

  /** `re.split(r"\n\s*\n", s)`: leftmost matches, each as long as it can be. */
  function SplitGaps(s: string): seq<string>
    decreases |s|
  {
    var (k, j) := NextGap(s);
    if k == |s| then [s] else [s[..k]] + SplitGaps(s[j..])
  }

  /** The pieces stripped, those that are blank dropped. */
  function StripAll(pieces: seq<string>): seq<string> {
    if pieces == [] then []
    else (if Strip(pieces[0]) == "" then [] else [Strip(pieces[0])]) + StripAll(pieces[1..])
  }

  /** The non-blank paragraphs of a text, stripped. */
  function Paragraphs(s: string): seq<string> {
    StripAll(SplitGaps(s))
  }

  /** Every entry is a stripped text that is not blank. */
  predicate Tight(pieces: seq<string>) {
    forall i | 0 <= i < |pieces| :: pieces[i] != "" && Stripped(pieces[i])
  }

  lemma {:induction false} StripAllTight(pieces: seq<string>)
    ensures Tight(StripAll(pieces))
  {
    if pieces != [] {
      StripAllTight(pieces[1..]);
    }
  }

  lemma ParagraphsTight(s: string)
    ensures Tight(Paragraphs(s))
  {
    StripAllTight(SplitGaps(s));
  }

  lemma {:induction false} StripAllNonSpace(pieces: seq<string>)
    ensures NonSpace(Flatten(StripAll(pieces))) == NonSpace(Flatten(pieces))
  {
    if pieces != [] {
      var tail := pieces[1..];
      StripAllNonSpace(tail);
      StripNonSpace(pieces[0]);
      NonSpaceConcat(pieces[0], Flatten(tail));
      NonSpaceConcat(Strip(pieces[0]), Flatten(StripAll(tail)));
      if Strip(pieces[0]) == "" {
        assert StripAll(pieces) == StripAll(tail);
      } else {
        FlattenCons(Strip(pieces[0]), StripAll(tail));
      }
    }
  }

  lemma {:induction false} SplitGapsNonSpace(s: string)
    ensures NonSpace(Flatten(SplitGaps(s))) == NonSpace(s)
    decreases |s|
  {
    var (k, j) := NextGap(s);
    if k == |s| {
      assert Flatten([s]) == s;
    } else {
      SplitGapsNonSpace(s[j..]);
      SplitOffNonSpace(s, k, j, SplitGaps(s[j..]));
    }
  }

  /** Splitting into paragraphs loses whitespace only. */
  lemma ParagraphsNonSpace(s: string)
    ensures NonSpace(Flatten(Paragraphs(s))) == NonSpace(s)
  {
    SplitGapsNonSpace(s);
    StripAllNonSpace(SplitGaps(s));
  }

  // ---------------------------------------------------------------- joining and splitting again

  lemma {:induction false} FirstGapSkip(line: string, rest: string)
    requires '\n' !in line
    ensures FirstGap(line + rest) == |line| + FirstGap(rest)
  {
    if line == "" {
      assert line + rest == rest;
    } else {
      assert (line + rest)[1..] == line[1..] + rest;
      FirstGapSkip(line[1..], rest);
    }
  }

  /** A newline before a visible character starts no gap. */
  lemma FirstGapNewline(rest: string)
    requires rest != "" && !IsSpace(rest[0])
    ensures FirstGap("\n" + rest) == 1 + FirstGap(rest)
  {
    var s := "\n" + rest;
    assert s[1..] == rest;
    assert SpaceRun(rest) == 0;
    assert SpaceRun(s) == 1;
    assert AfterLastNewline(s, 1) == 1;
  }

  lemma BlankLineGap(rest: string)
    requires rest != "" && !IsSpace(rest[0])
    ensures FirstGap("\n\n" + rest) == 0 && GapLength("\n\n" + rest) == 2
  {
    var s := "\n\n" + rest;
    assert s[1..] == "\n" + rest && s[1..][1..] == rest;
    assert SpaceRun(rest) == 0;
    assert SpaceRun(s[1..]) == 1;
    assert SpaceRun(s) == 2;
    assert s[1] == '\n';
  }

  predicate NoSpaces(s: string) {
    forall i | 0 <= i < |s| :: !IsSpace(s[i])
  }

  lemma {:induction false} NoGapInLine(line: string)
    requires '\n' !in line
    ensures FirstGap(line) == |line|
  {
    assert line + "" == line;
    FirstGapSkip(line, "");
  }

  lemma {:induction false} JoinHead(sep: string, parts: seq<string>)
    requires Tight(parts) && parts != []
    ensures Join(sep, parts) != "" && Join(sep, parts)[0] == parts[0][0]
  {
  }

  /** A first paragraph without gaps, then a blank line: the split takes it off whole. */
  lemma SplitGapsHead(head: string, rest: string)
    requires rest != "" && !IsSpace(rest[0])
    requires FirstGap(head + "\n\n" + rest) == |head|
    ensures SplitGaps(head + "\n\n" + rest) == [head] + SplitGaps(rest)
  {
    hide FirstGap, GapLength, IsSpace;
    var s := head + "\n\n" + rest;
    BlankLineGap(rest);
    assert s[|head|..] == "\n\n" + rest;
    assert NextGap(s) == (|head|, |head| + 2);
    assert s[..|head|] == head && s[|head| + 2..] == rest;
  }

  lemma StripAllCons(head: string, tail: seq<string>)
    requires head != "" && Stripped(head)
    ensures StripAll([head] + tail) == [head] + StripAll(tail)
    ensures StripAll([]) == []
  {
    StripFixed(head);
    assert ([head] + tail)[1..] == tail;
  }

  /** Words separated by blank lines are the paragraphs of the text. */
  lemma {:induction false} ParagraphsOfWords(words: seq<string>)
    requires words != [] && Tight(words)
    requires forall i | 0 <= i < |words| :: NoSpaces(words[i])
    ensures Paragraphs(Join("\n\n", words)) == words
  {
    hide Stripped, IsSpace, GapLength, StripAll, SplitGaps;
    var head, tail := words[0], words[1..];
    assert Stripped(head);
    NoNewline(head);
    if tail == [] {
      NoGapInLine(head);
      SplitNoGap(head);
      StripAllCons(head, []);
      assert words == [head] == [head] + [];
    } else {
      ParagraphsOfWords(tail);
      var rest := Join("\n\n", tail);
      JoinHead("\n\n", tail);
      FirstVisible(tail);
      FirstGapSkip(head, "\n\n" + rest);
      BlankLineGap(rest);
      assert head + ("\n\n" + rest) == head + "\n\n" + rest;
      SplitGapsHead(head, rest);
      StripAllCons(head, SplitGaps(rest));
    }
  }

  lemma NoNewline(word: string)
    requires NoSpaces(word)
    ensures '\n' !in word
  {
  }

  lemma FirstVisible(words: seq<string>)
    requires Tight(words) && words != []
    ensures !IsSpace(words[0][0])
  {
  }

  lemma SplitNoGap(s: string)
    requires FirstGap(s) == |s|
    ensures StripAll(SplitGaps(s)) == StripAll([s])
  {
  }
}
