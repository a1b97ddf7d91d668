/**
 The text cleaner (`backend/app/cleaners/text.py`), after Unicode normalisation: lines are trimmed and
 boilerplate lines dropped, and of paragraphs that differ in whitespace only the first is kept.
 */
module Cleaning {
  import opened Sequences
  import opened Text

  // ---------------------------------------------------------------- lines

  /** The characters of `[\t \u3000]+`. */
  predicate IsBlankChar(c: char) {
    c == ' ' || c == '\t' || c == '\U{3000}'
  }

  function DropBlanks(s: string): (r: string)
    ensures |r| <= |s|
    ensures r != "" ==> !IsBlankChar(r[0])
  {
    if s != "" && IsBlankChar(s[0]) then DropBlanks(s[1..]) else s
  }

  /** `re.sub(r"[\t \u3000]+", " ", line)` */
  function Collapse(s: string): string
    decreases |s|
  {
    if s == "" then ""
    else if IsBlankChar(s[0]) then " " + Collapse(DropBlanks(s[1..]))
    else [s[0]] + Collapse(s[1..])
  }

  function Value(line: string): string {
    Strip(Collapse(line))
  }

  /** The only blanks are single spaces. */
  predicate Collapsed(s: string) {
    forall i | 0 <= i < |s| && IsBlankChar(s[i]) :: s[i] == ' ' && (i + 1 < |s| ==> !IsBlankChar(s[i + 1]))
  }

  lemma {:induction false} CollapseCollapses(s: string)
    ensures Collapsed(Collapse(s))
    ensures s != "" && !IsBlankChar(s[0]) ==> Collapse(s) != "" && !IsBlankChar(Collapse(s)[0])
    decreases |s|
  {
    if s != "" {
      if IsBlankChar(s[0]) { CollapseCollapses(DropBlanks(s[1..])); } else { CollapseCollapses(s[1..]); }
    }
  }

  lemma {:induction false} CollapseFixed(s: string)
    requires Collapsed(s)
    ensures Collapse(s) == s
  {
    if s != "" {
      CollapseFixed(s[1..]);
      assert s == [s[0]] + s[1..];
      assert IsBlankChar(s[0]) ==> DropBlanks(s[1..]) == s[1..];
    }
  }

  lemma {:induction false} DropBlanksNonSpace(s: string)
    ensures NonSpace(DropBlanks(s)) == NonSpace(s)
    ensures OneLine(s) ==> OneLine(DropBlanks(s))
  {
    if s != "" && IsBlankChar(s[0]) { DropBlanksNonSpace(s[1..]); }
  }

  lemma {:induction false} CollapseKeeps(s: string)
    ensures NonSpace(Collapse(s)) == NonSpace(s)
    ensures OneLine(s) ==> OneLine(Collapse(s))
    decreases |s|
  {
    if s != "" {
      if IsBlankChar(s[0]) {
        DropBlanksNonSpace(s[1..]);
        CollapseKeeps(DropBlanks(s[1..]));
      } else {
        CollapseKeeps(s[1..]);
      }
    }
  }

  /** Stripping takes a part of the text. */
  lemma StripIsSlice(s: string) returns (i: nat, j: nat)
    ensures i <= j <= |s| && Strip(s) == s[i..j]
  {
    LStripSuffix(s);
    var t := LStrip(s);
    var n := RStripPrefix(t);
    i := |s| - |t|;
    j := i + n;
  }

  lemma {:induction false} RStripPrefix(s: string) returns (n: nat)
    ensures n <= |s| && RStrip(s) == s[..n]
  {
    n := |s|;
    if s != "" && IsSpace(s[|s| - 1]) {
      n := RStripPrefix(s[..|s| - 1]);
    }
  }

  /** What a line must be to be kept: not blank, trimmed, collapsed, one line, no boilerplate. */
  predicate GoodLine(boilerplate: string -> bool, line: string) {
    line != "" && Stripped(line) && Collapsed(line) && OneLine(line) && !boilerplate(line)
  }

  lemma SliceStays(s: string, i: nat, j: nat)
    requires i <= j <= |s| && Collapsed(s)
    ensures Collapsed(s[i..j]) && (OneLine(s) ==> OneLine(s[i..j]))
  {
    hide IsBlankChar, IsLineBreak;
    forall k | 0 <= k < j - i ensures s[i..j][k] == s[i + k] {
    }
  }

  lemma ValueIsGood(boilerplate: string -> bool, line: string)
    requires OneLine(line)
    ensures Value(line) != "" && !boilerplate(Value(line)) ==> GoodLine(boilerplate, Value(line))
    ensures NonSpace(Value(line)) == NonSpace(line)
  {
    hide Collapse, Strip, Collapsed, OneLine, Stripped;
    CollapseCollapses(line);
    CollapseKeeps(line);
    StripNonSpace(Collapse(line));
    var i, j := StripIsSlice(Collapse(line));
    SliceStays(Collapse(line), i, j);
  }

  lemma GoodLineIsItsValue(boilerplate: string -> bool, line: string)
    requires line == "" || GoodLine(boilerplate, line)
    ensures Value(line) == line
  {
    CollapseFixed(line);
    StripFixed(line);
  }

  // ---------------------------------------------------------------- the two loops as functions

  /** The lines kept, with one empty line for any number of blank ones between them. */
  function Kept(boilerplate: string -> bool, lines: seq<string>): seq<string> {
    if lines == [] then []
    else
      var before, value := Kept(boilerplate, lines[..|lines| - 1]), Value(lines[|lines| - 1]);
      if value != "" && !boilerplate(value) then before + [value]
      else if value == "" && before != [] && before[|before| - 1] != "" then before + [""]
      else before
  }

  function Fingerprints(paragraphs: seq<string>): (prints: seq<string>)
    ensures |prints| == |paragraphs|
  {
    seq(|paragraphs|, i requires 0 <= i < |paragraphs| => NonSpace(paragraphs[i]))
  }

  /** The paragraphs whose fingerprint no earlier one has. */
  function Deduplicated(paragraphs: seq<string>): seq<string> {
    if paragraphs == [] then []
    else
      var n := |paragraphs| - 1;
      Deduplicated(paragraphs[..n])
      + (if NonSpace(paragraphs[n]) in Fingerprints(paragraphs[..n]) then [] else [paragraphs[n]])
  }

  function RemoveDuplicates(text: string): string {
    Join("\n\n", Deduplicated(Paragraphs(text)))
  }

  /** The kept lines of a text, joined again. */
  function KeptText(boilerplate: string -> bool, text: string): string {
    Join("\n", Kept(boilerplate, SplitLines(UnifyNewlines(text))))
  }

  /** The cleaner on text that is already NFKC-normalised. */
  function Clean(boilerplate: string -> bool, text: string): string {
    Strip(RemoveDuplicates(KeptText(boilerplate, text)))
  }

  // ---------------------------------------------------------------- first occurrences

  /** The paragraphs left are, by their fingerprints, the distinct ones in order of first occurrence. */
  lemma {:induction false} FirstOccurrences(paragraphs: seq<string>)
    ensures Fingerprints(Deduplicated(paragraphs)) == Unique(Fingerprints(paragraphs))
    ensures forall p :: p in Deduplicated(paragraphs) <==>
      exists i :: IsFirst(paragraphs, i, p)
  {
    hide NonSpace, Fingerprints;
    DistinctFingerprints(paragraphs);
    if paragraphs != [] {
      FirstOccurrences(paragraphs[..|paragraphs| - 1]);
      forall p ensures p in Deduplicated(paragraphs) <==> exists i :: IsFirst(paragraphs, i, p) {
        FirstOfLonger(paragraphs, p);
      }
    }
  }

  lemma {:induction false} DistinctFingerprints(paragraphs: seq<string>)
    ensures Fingerprints(Deduplicated(paragraphs)) == Unique(Fingerprints(paragraphs))
  {
    if paragraphs != [] {
      hide NonSpace;
      var n := |paragraphs| - 1;
      var before, last := paragraphs[..n], paragraphs[n];
      DistinctFingerprints(before);
      UniqueIsDistinct(Fingerprints(before));
      assert Fingerprints(paragraphs) == Fingerprints(before) + [NonSpace(last)];
      assert Fingerprints(paragraphs)[..n] == Fingerprints(before);
    }
  }

  /** The paragraph at that place has a fingerprint that no earlier one has. */
  predicate IsFirst(paragraphs: seq<string>, i: int, p: string) {
    0 <= i < |paragraphs| && paragraphs[i] == p && NonSpace(p) !in Fingerprints(paragraphs[..i])
  }

  lemma FirstOfLonger(paragraphs: seq<string>, p: string)
    requires paragraphs != []
    ensures var n := |paragraphs| - 1;
      (exists i :: IsFirst(paragraphs, i, p)) <==>
        (exists i :: IsFirst(paragraphs[..n], i, p))
        || (p == paragraphs[n] && NonSpace(p) !in Fingerprints(paragraphs[..n]))
  {
    hide NonSpace, Fingerprints;
    var n := |paragraphs| - 1;
    if i :| IsFirst(paragraphs, i, p) {
      if i < n {
        assert paragraphs[..n][..i] == paragraphs[..i];
        assert IsFirst(paragraphs[..n], i, p);
      }
    }
    if i :| IsFirst(paragraphs[..n], i, p) {
      assert paragraphs[..n][..i] == paragraphs[..i];
      assert IsFirst(paragraphs, i, p);
    }
    if p == paragraphs[n] && NonSpace(p) !in Fingerprints(paragraphs[..n]) {
      assert IsFirst(paragraphs, n, p);
    }
  }

  /** Paragraphs with distinct fingerprints all stay. */
  lemma {:induction false} DistinctStay(paragraphs: seq<string>)
    requires Distinct(Fingerprints(paragraphs))
    ensures Deduplicated(paragraphs) == paragraphs
  {
    if paragraphs != [] {
      hide NonSpace;
      var n := |paragraphs| - 1;
      assert Fingerprints(paragraphs)[n] == NonSpace(paragraphs[n]);
      assert Fingerprints(paragraphs[..n]) == Fingerprints(paragraphs)[..n];
      DistinctStay(paragraphs[..n]);
      assert paragraphs == paragraphs[..n] + [paragraphs[n]];
    }
  }

  // ---------------------------------------------------------------- groups of lines

  /** A paragraph as its lines. */
  predicate GoodGroup(boilerplate: string -> bool, group: seq<string>) {
    group != [] && forall i | 0 <= i < |group| :: GoodLine(boilerplate, group[i])
  }

  predicate GoodGroups(boilerplate: string -> bool, groups: seq<seq<string>>) {
    forall i | 0 <= i < |groups| :: GoodGroup(boilerplate, groups[i])
  }

  /** The lines of the groups, an empty line between two of them. */
  function LinesOf(groups: seq<seq<string>>): seq<string> {
    if groups == [] then []
    else if |groups| == 1 then groups[0]
    else groups[0] + [""] + LinesOf(groups[1..])
  }

  function Rendered(groups: seq<seq<string>>): (paragraphs: seq<string>)
    ensures |paragraphs| == |groups|
  {
    seq(|groups|, i requires 0 <= i < |groups| => Join("\n", groups[i]))
  }

  /** A line added to the last group while that is open, else starting a group of its own. */
  function AddLine(groups: seq<seq<string>>, open: bool, line: string): seq<seq<string>> {
    if groups != [] && open then groups[..|groups| - 1] + [groups[|groups| - 1] + [line]] else groups + [[line]]
  }

  lemma {:induction false} LinesOfLast(groups: seq<seq<string>>, last: seq<string>)
    ensures LinesOf(groups + [last]) == if groups == [] then last else LinesOf(groups) + [""] + last
  {
    if groups == [] {
      assert groups + [last] == [last];
    } else {
      LinesOfLast(groups[1..], last);
      assert (groups + [last])[1..] == groups[1..] + [last];
      if |groups| == 1 {
        assert groups[1..] == [];
      } else {
        assert LinesOf(groups + [last]) == groups[0] + [""] + (LinesOf(groups[1..]) + [""] + last);
      }
    }
  }

  lemma {:induction false} LinesOfVisible(boilerplate: string -> bool, groups: seq<seq<string>>)
    requires GoodGroups(boilerplate, groups) && groups != []
    ensures LinesOf(groups) != [] && LinesOf(groups)[|LinesOf(groups)| - 1] != ""
  {
    var n := |groups| - 1;
    assert groups == groups[..n] + [groups[n]];
    LinesOfLast(groups[..n], groups[n]);
    assert GoodGroup(boilerplate, groups[n]);
  }

  lemma AddLineGood(boilerplate: string -> bool, groups: seq<seq<string>>, open: bool, line: string)
    requires GoodGroups(boilerplate, groups) && GoodLine(boilerplate, line)
    ensures GoodGroups(boilerplate, AddLine(groups, open, line)) && AddLine(groups, open, line) != []
  {
    hide GoodLine;
    if groups != [] && open {
      assert GoodGroup(boilerplate, groups[|groups| - 1]);
      assert GoodGroup(boilerplate, groups[|groups| - 1] + [line]);
    } else {
      assert GoodGroup(boilerplate, [line]);
    }
  }

  /** Adding a line to the last group, or a group of one line. */
  lemma AddLineLines(groups: seq<seq<string>>, open: bool, line: string)
    ensures LinesOf(AddLine(groups, open, line)) ==
      if groups == [] then [line] else if open then LinesOf(groups) + [line] else LinesOf(groups) + [""] + [line]
  {
    hide LinesOf;
    if groups != [] && open {
      var n := |groups| - 1;
      assert groups == groups[..n] + [groups[n]];
      LinesOfLast(groups[..n], groups[n]);
      LinesOfLast(groups[..n], groups[n] + [line]);
      assert LinesOf(groups[..n]) + [""] + (groups[n] + [line]) == LinesOf(groups[..n]) + [""] + groups[n] + [line];
    } else {
      LinesOfLast(groups, [line]);
    }
  }

  /** Kept lines are the lines of good groups, perhaps with an empty line after the last. */
  lemma {:induction false} KeptIsGroups(
    boilerplate: string -> bool, lines: seq<string>) returns (groups: seq<seq<string>>, open: bool)
    requires forall i | 0 <= i < |lines| :: OneLine(lines[i])
    ensures GoodGroups(boilerplate, groups) && (groups == [] ==> open)
    ensures Kept(boilerplate, lines) == LinesOf(groups) + (if open then [] else [""])
  {
    hide Value, OneLine, GoodGroups;
    if lines == [] {
      groups, open := [], true;
      NoGroups(boilerplate);
    } else {
      var n := |lines| - 1;
      groups, open := KeptIsGroups(boilerplate, lines[..n]);
      var value := Value(lines[n]);
      ValueIsGood(boilerplate, lines[n]);
      if groups != [] { LinesOfVisible(boilerplate, groups); }
      if value != "" && !boilerplate(value) {
        AddLineGood(boilerplate, groups, open, value);
        AddLineLines(groups, open, value);
        groups, open := AddLine(groups, open, value), true;
      } else if value == "" && groups != [] {
        open := false;
      }
    }
  }

  lemma NoGroups(boilerplate: string -> bool)
    ensures GoodGroups(boilerplate, []) && LinesOf([]) == []
  {
  }

  // ---------------------------------------------------------------- groups as text

  predicate Visible(s: string) {
    s != "" && Stripped(s)
  }

  lemma GoodLineIsVisible(boilerplate: string -> bool, line: string)
    requires GoodLine(boilerplate, line)
    ensures Visible(line) && '\n' !in line && OneLine(line)
  {
  }

  /** A paragraph starts and ends visibly and holds no gap: the first one is in what follows it. */
  lemma {:induction false} GroupHasNoGap(boilerplate: string -> bool, group: seq<string>, tail: string)
    requires GoodGroup(boilerplate, group)
    ensures Visible(Join("\n", group))
    ensures FirstGap(Join("\n", group) + tail) == |Join("\n", group)| + FirstGap(tail)
  {
    hide GoodLine, FirstGap, OneLine, IsSpace;
    GoodLineIsVisible(boilerplate, group[0]);
    if |group| == 1 {
      FirstGapSkip(group[0], tail);
    } else {
      var rest := Join("\n", group[1..]);
      GroupHasNoGap(boilerplate, group[1..], tail);
      FirstGapSkip(group[0], "\n" + (rest + tail));
      assert !IsSpace((rest + tail)[0]);
      FirstGapNewline(rest + tail);
      assert Join("\n", group) + tail == group[0] + ("\n" + (rest + tail));
      JoinEnds(group[0], rest);
    }
  }

  lemma JoinEnds(first: string, rest: string)
    requires Visible(first) && Visible(rest)
    ensures Visible(first + "\n" + rest)
  {
    var s := first + "\n" + rest;
    assert s[0] == first[0] && s[|s| - 1] == rest[|rest| - 1];
  }

  /** The text of the groups, as lines and as paragraphs. */
  lemma {:induction false} LinesAreParagraphs(boilerplate: string -> bool, groups: seq<seq<string>>)
    requires GoodGroups(boilerplate, groups)
    ensures Join("\n", LinesOf(groups)) == Join("\n\n", Rendered(groups))
  {
    if |groups| > 1 {
      hide GoodLine;
      LinesAreParagraphs(boilerplate, groups[1..]);
      LinesOfVisible(boilerplate, groups[1..]);
      assert GoodGroup(boilerplate, groups[0]);
      JoinAcrossGap(groups[0], LinesOf(groups[1..]));
      assert Rendered(groups)[1..] == Rendered(groups[1..]);
    }
  }

  lemma JoinAcrossGap(head: seq<string>, rest: seq<string>)
    requires head != [] && rest != []
    ensures Join("\n", head + [""] + rest) == Join("\n", head) + "\n\n" + Join("\n", rest)
  {
    JoinConcat("\n", head + [""], rest);
    JoinConcat("\n", head, [""]);
    assert Join("\n", head) + "\n" + "" + "\n" + Join("\n", rest) == Join("\n", head) + "\n\n" + Join("\n", rest);
  }

  lemma OnlyParagraph(boilerplate: string -> bool, group: seq<string>, end: string)
    requires GoodGroup(boilerplate, group) && (end == "" || end == "\n")
    ensures Paragraphs(Join("\n", group) + end) == [Join("\n", group)]
  {
    hide GoodGroup;
    var p := Join("\n", group);
    GroupHasNoGap(boilerplate, group, end);
    NoGapInNewline();
    SplitNoGap(p + end);
    StripPadded("", p, end);
    assert "" + p + end == p + end;
    assert StripAll([p + end]) == [p] + StripAll([p + end][1..]);
  }

  lemma NoGapInNewline()
    ensures FirstGap("\n") == 1 && FirstGap("") == 0
  {
    assert "\n"[1..] == "" && SpaceRun("\n") == 1 && AfterLastNewline("\n", 1) == 1;
  }

  lemma HeadParagraph(boilerplate: string -> bool, group: seq<string>, rest: string)
    requires GoodGroup(boilerplate, group) && rest != "" && !IsSpace(rest[0])
    ensures Paragraphs(Join("\n", group) + "\n\n" + rest) == [Join("\n", group)] + Paragraphs(rest)
  {
    hide GoodGroup, SplitGaps, StripAll, IsSpace, FirstGap, GapLength, Join;
    var head := Join("\n", group);
    GroupHasNoGap(boilerplate, group, "\n\n" + rest);
    BlankLineGap(rest);
    assert head + ("\n\n" + rest) == head + "\n\n" + rest;
    SplitGapsHead(head, rest);
    StripAllCons(head, SplitGaps(rest));
  }

  lemma RenderedCons(groups: seq<seq<string>>)
    requires |groups| > 1
    ensures Rendered(groups) == [Join("\n", groups[0])] + Rendered(groups[1..])
    ensures Join("\n\n", Rendered(groups)) == Join("\n", groups[0]) + "\n\n" + Join("\n\n", Rendered(groups[1..]))
  {
    assert Rendered(groups)[1..] == Rendered(groups[1..]);
  }

  /** Splitting the text of the groups into paragraphs gives the groups back. */
  lemma {:induction false} ParagraphsOfGroups(boilerplate: string -> bool, groups: seq<seq<string>>, end: string)
    requires GoodGroups(boilerplate, groups) && groups != [] && (end == "" || end == "\n")
    ensures Paragraphs(Join("\n\n", Rendered(groups)) + end) == Rendered(groups)
  {
    hide GoodGroup, Paragraphs, IsSpace, Join;
    assert GoodGroup(boilerplate, groups[0]);
    if |groups| == 1 {
      OnlyParagraph(boilerplate, groups[0], end);
      assert Rendered(groups) == [Join("\n", groups[0])];
      JoinOne(Join("\n", groups[0]));
    } else {
      var rest := Join("\n\n", Rendered(groups[1..])) + end;
      ParagraphsOfGroups(boilerplate, groups[1..], end);
      RestIsVisible(boilerplate, groups[1..], end);
      HeadParagraph(boilerplate, groups[0], rest);
      RenderedCons(groups);
      assert Join("\n\n", Rendered(groups)) + end == Join("\n", groups[0]) + "\n\n" + rest;
    }
  }

  lemma JoinOne(part: string)
    ensures Join("\n\n", [part]) == part
  {
  }

  lemma VisibleIs(s: string)
    requires Visible(s)
    ensures s != "" && Stripped(s) && !IsSpace(s[0])
  {
  }

  lemma RestIsVisible(boilerplate: string -> bool, groups: seq<seq<string>>, end: string)
    requires GoodGroups(boilerplate, groups) && groups != []
    ensures var rest := Join("\n\n", Rendered(groups)) + end; rest != "" && !IsSpace(rest[0])
  {
    hide IsSpace, GoodGroup;
    assert GoodGroup(boilerplate, groups[0]);
    GroupHasNoGap(boilerplate, groups[0], "");
    VisibleIs(Rendered(groups)[0]);
  }

  // ---------------------------------------------------------------- what cleaning gives

  lemma {:induction false} DeduplicatedGroups(
    boilerplate: string -> bool, groups: seq<seq<string>>) returns (left: seq<seq<string>>)
    requires GoodGroups(boilerplate, groups)
    ensures GoodGroups(boilerplate, left) && Rendered(left) == Deduplicated(Rendered(groups))
  {
    hide GoodGroup, NonSpace, Join;
    if groups == [] {
      left := [];
    } else {
      var n := |groups| - 1;
      left := DeduplicatedGroups(boilerplate, groups[..n]);
      assert Rendered(groups)[..n] == Rendered(groups[..n]);
      assert GoodGroup(boilerplate, groups[n]);
      if NonSpace(Rendered(groups)[n]) !in Fingerprints(Rendered(groups[..n])) {
        assert Rendered(left + [groups[n]]) == Rendered(left) + [Rendered(groups)[n]];
        left := left + [groups[n]];
      }
    }
  }

  lemma TextIsStripped(boilerplate: string -> bool, groups: seq<seq<string>>)
    requires GoodGroups(boilerplate, groups)
    ensures Strip(Join("\n\n", Rendered(groups))) == Join("\n\n", Rendered(groups))
  {
    hide GoodGroup, Stripped;
    if groups != [] {
      forall i | 0 <= i < |groups| ensures Visible(Rendered(groups)[i]) {
        GroupHasNoGap(boilerplate, groups[i], "");
      }
      JoinedIsVisible(Rendered(groups));
    }
    StripFixed(Join("\n\n", Rendered(groups)));
  }

  lemma {:induction false} JoinedIsVisible(parts: seq<string>)
    requires parts != [] && forall i | 0 <= i < |parts| :: Visible(parts[i])
    ensures Visible(Join("\n\n", parts))
  {
    if |parts| > 1 {
      JoinedIsVisible(parts[1..]);
      var rest := Join("\n\n", parts[1..]);
      var s := parts[0] + "\n\n" + rest;
      assert Visible(parts[0]) && s[0] == parts[0][0] && s[|s| - 1] == rest[|rest| - 1];
    }
  }

  /** The paragraphs of kept lines, whether or not an empty line ends them. */
  lemma ParagraphsOfLines(boilerplate: string -> bool, groups: seq<seq<string>>, open: bool)
    requires GoodGroups(boilerplate, groups) && (groups == [] ==> open)
    ensures Paragraphs(Join("\n", LinesOf(groups) + (if open then [] else [""]))) == Rendered(groups)
  {
    hide GoodGroups, Paragraphs, Rendered;
    var lines := LinesOf(groups);
    if groups == [] {
      NoParagraphs();
      assert lines + [] == [] && Rendered(groups) == [];
    } else {
      var end := if open then "" else "\n";
      LinesOfVisible(boilerplate, groups);
      LinesAreParagraphs(boilerplate, groups);
      ParagraphsOfGroups(boilerplate, groups, end);
      if open {
        assert lines + [] == lines && Join("\n", lines) + end == Join("\n", lines);
      } else {
        JoinConcat("\n", lines, [""]);
        assert Join("\n", lines) + "\n" + "" == Join("\n", lines) + end;
      }
    }
  }

  lemma NoParagraphs()
    ensures Paragraphs("") == []
  {
    NoGapInNewline();
    SplitNoGap("");
  }

  /** Cleaned text is that of good groups with distinct fingerprints; they are what is left of the kept paragraphs. */
  lemma CleanIsGroups(boilerplate: string -> bool, text: string) returns (groups: seq<seq<string>>)
    ensures GoodGroups(boilerplate, groups) && Distinct(Fingerprints(Rendered(groups)))
    ensures Clean(boilerplate, text) == Join("\n\n", Rendered(groups))
    ensures Rendered(groups) == Deduplicated(Paragraphs(KeptText(boilerplate, text)))
  {
    hide GoodGroups, Kept, Paragraphs, Deduplicated, Rendered, LinesOf, Fingerprints, Join, Strip;
    var lines := SplitLines(UnifyNewlines(text));
    SplitLinesOneLine(UnifyNewlines(text));
    var kept, open := KeptIsGroups(boilerplate, lines);
    ParagraphsOfLines(boilerplate, kept, open);
    groups := DeduplicatedGroups(boilerplate, kept);
    FirstOccurrences(Rendered(kept));
    UniqueIsDistinct(Fingerprints(Rendered(kept)));
    TextIsStripped(boilerplate, groups);
  }

  predicate Spaced(boilerplate: string -> bool, lines: seq<string>) {
    && (forall i | 0 <= i < |lines| :: lines[i] == "" || GoodLine(boilerplate, lines[i]))
    && (lines != [] ==> lines[0] != "")
    && (forall i | 0 <= i < |lines| - 1 && lines[i] == "" :: lines[i + 1] != "")
  }

  lemma {:induction false} KeptFixed(boilerplate: string -> bool, lines: seq<string>)
    requires Spaced(boilerplate, lines)
    ensures Kept(boilerplate, lines) == lines
  {
    hide Value;
    if lines != [] {
      var n := |lines| - 1;
      KeptFixed(boilerplate, lines[..n]);
      GoodLineIsItsValue(boilerplate, lines[n]);
      assert lines == lines[..n] + [lines[n]];
    }
  }

  lemma {:induction false} LinesAreSpaced(boilerplate: string -> bool, groups: seq<seq<string>>)
    requires GoodGroups(boilerplate, groups)
    ensures Spaced(boilerplate, LinesOf(groups))
  {
    if groups != [] {
      hide Stripped, Collapsed, OneLine;
      var head := groups[0];
      assert GoodGroup(boilerplate, head);
      assert forall i | 0 <= i < |head| :: GoodLine(boilerplate, head[i]) && head[i] != "";
      if |groups| > 1 {
        LinesAreSpaced(boilerplate, groups[1..]);
        LinesOfVisible(boilerplate, groups[1..]);
        SpacedConcat(boilerplate, head, LinesOf(groups[1..]));
      }
    }
  }

  lemma SpacedConcat(boilerplate: string -> bool, head: seq<string>, rest: seq<string>)
    requires head != [] && rest != [] && Spaced(boilerplate, rest)
    requires forall i | 0 <= i < |head| :: GoodLine(boilerplate, head[i]) && head[i] != ""
    ensures Spaced(boilerplate, head + [""] + rest)
  {
    hide GoodLine;
  }

  lemma {:induction false} JoinSplitsBack(lines: seq<string>)
    requires forall i | 0 <= i < |lines| :: OneLine(lines[i])
    requires lines != [] ==> lines[|lines| - 1] != ""
    ensures SplitLines(Join("\n", lines)) == lines
  {
    hide OneLine;
    if |lines| == 1 {
      SplitLinesLast(lines[0]);
    } else if lines != [] {
      JoinSplitsBack(lines[1..]);
      SplitLinesCons(lines[0], '\n', Join("\n", lines[1..]));
      assert "\n" == ['\n'] && lines == [lines[0]] + lines[1..];
    }
  }

  lemma {:induction false} JoinHasNoReturn(lines: seq<string>)
    requires forall i | 0 <= i < |lines| :: OneLine(lines[i])
    ensures '\r' !in Join("\n", lines)
  {
    if lines != [] {
      assert IsLineBreak('\r') && OneLine(lines[0]);
      JoinHasNoReturn(lines[1..]);
    }
  }

  /** Text of good groups with distinct fingerprints is clean already. */
  lemma CleanFixesGroups(boilerplate: string -> bool, groups: seq<seq<string>>)
    requires GoodGroups(boilerplate, groups) && Distinct(Fingerprints(Rendered(groups)))
    ensures Clean(boilerplate, Join("\n\n", Rendered(groups))) == Join("\n\n", Rendered(groups))
  {
    hide GoodGroups, GoodLine, Kept, Paragraphs, Deduplicated, Rendered, LinesOf, Fingerprints, Join, Strip, OneLine;
    var lines := LinesOf(groups);
    LinesAreParagraphs(boilerplate, groups);
    LinesAreSpaced(boilerplate, groups);
    forall i | 0 <= i < |lines| ensures OneLine(lines[i]) {
      SpacedIsOneLine(boilerplate, lines[i]);
    }
    JoinHasNoReturn(lines);
    UnifyNewlinesFixed(Join("\n", lines));
    LastIsVisible(boilerplate, groups);
    JoinSplitsBack(lines);
    KeptFixed(boilerplate, lines);
    assert lines + [] == lines;
    ParagraphsOfLines(boilerplate, groups, true);
    DistinctStay(Rendered(groups));
    TextIsStripped(boilerplate, groups);
  }

  lemma SpacedIsOneLine(boilerplate: string -> bool, line: string)
    requires line == "" || GoodLine(boilerplate, line)
    ensures OneLine(line)
  {
  }

  lemma LastIsVisible(boilerplate: string -> bool, groups: seq<seq<string>>)
    requires GoodGroups(boilerplate, groups)
    ensures LinesOf(groups) != [] ==> LinesOf(groups)[|LinesOf(groups)| - 1] != ""
  {
    if groups != [] { LinesOfVisible(boilerplate, groups); }
  }

  /** Cleaning cleaned text changes nothing, whatever lines count as boilerplate. */
  lemma CleanIsIdempotent(boilerplate: string -> bool, text: string)
    ensures Clean(boilerplate, Clean(boilerplate, text)) == Clean(boilerplate, text)
  {
    hide Clean, GoodGroups, Fingerprints;
    var groups := CleanIsGroups(boilerplate, text);
    CleanFixesGroups(boilerplate, groups);
  }

  lemma CollapsedAcrossNewline(a: string, b: string)
    requires Collapsed(a) && Collapsed(b)
    ensures Collapsed(a + "\n" + b)
  {
    var s := a + "\n" + b;
    forall i | 0 <= i < |s| && IsBlankChar(s[i])
      ensures s[i] == ' ' && (i + 1 < |s| ==> !IsBlankChar(s[i + 1]))
    {
      if i < |a| { assert s[i] == a[i]; } else { assert s[i] == b[i - |a| - 1]; }
    }
  }

  lemma {:induction false} LinesAreCollapsed(boilerplate: string -> bool, group: seq<string>)
    requires forall i | 0 <= i < |group| :: GoodLine(boilerplate, group[i])
    ensures Collapsed(Join("\n", group))
  {
    hide Collapsed;
    if group == [] {
      NothingCollapsed();
    } else if |group| > 1 {
      LinesAreCollapsed(boilerplate, group[1..]);
      CollapsedAcrossNewline(group[0], Join("\n", group[1..]));
    }
  }

  lemma NothingCollapsed()
    ensures Collapsed("")
  {
  }

  lemma {:induction false} ParagraphsAreCollapsed(boilerplate: string -> bool, groups: seq<seq<string>>)
    requires GoodGroups(boilerplate, groups)
    ensures Collapsed(Join("\n\n", Rendered(groups)))
  {
    hide Collapsed;
    NothingCollapsed();
    if groups != [] {
      var first, rest := groups[0], groups[1..];
      assert GoodGroup(boilerplate, first);
      LinesAreCollapsed(boilerplate, first);
      assert Rendered(groups) == [Join("\n", first)] + Rendered(rest);
      if rest != [] {
        ParagraphsAreCollapsed(boilerplate, rest);
        var later := Join("\n\n", Rendered(rest));
        CollapsedAcrossNewline("", later);
        CollapsedAcrossNewline(Join("\n", first), "" + "\n" + later);
        assert Join("\n", first) + "\n" + ("" + "\n" + later) == Join("\n", first) + "\n\n" + later;
      }
    }
  }

  /** The cleaned text has no tabs, no ideographic spaces and no two spaces in a row. */
  lemma CleanHasSingleSpaces(boilerplate: string -> bool, text: string, i: nat)
    requires i < |Clean(boilerplate, text)|
    ensures var clean := Clean(boilerplate, text);
      && clean[i] != '\t' && clean[i] != '\U{3000}'
      && (i > 0 ==> !(clean[i - 1] == ' ' && clean[i] == ' '))
  {
    hide Clean, GoodGroups, Rendered;
    var groups := CleanIsGroups(boilerplate, text);
    ParagraphsAreCollapsed(boilerplate, groups);
  }

  /**
   The paragraphs of the cleaned text are, by their fingerprints, the distinct paragraphs of the kept
   lines in order of first occurrence.
   */
  lemma CleanParagraphs(boilerplate: string -> bool, text: string)
    ensures Paragraphs(Clean(boilerplate, text)) == Deduplicated(Paragraphs(KeptText(boilerplate, text)))
    ensures Fingerprints(Paragraphs(Clean(boilerplate, text))) ==
      Unique(Fingerprints(Paragraphs(KeptText(boilerplate, text))))
  {
    hide Clean, GoodGroups, Fingerprints, Paragraphs, KeptText, Rendered, Join, Deduplicated;
    var groups := CleanIsGroups(boilerplate, text);
    FirstOccurrences(Paragraphs(KeptText(boilerplate, text)));
    if groups == [] {
      NothingRendered();
      NoParagraphs();
    } else {
      ParagraphsOfGroups(boilerplate, groups, "");
      assert Join("\n\n", Rendered(groups)) + "" == Join("\n\n", Rendered(groups));
    }
  }

  lemma NothingRendered()
    ensures Rendered([]) == [] && Join("\n\n", []) == ""
  {
  }

  // ---------------------------------------------------------------- nothing visible is lost

  /** The lines that are not dropped as boilerplate. */
  function NotBoilerplate(boilerplate: string -> bool, lines: seq<string>): seq<string> {
    if lines == [] then []
    else
      var n := |lines| - 1;
      NotBoilerplate(boilerplate, lines[..n])
      + (if Value(lines[n]) != "" && boilerplate(Value(lines[n])) then [] else [lines[n]])
  }

  lemma LastNonSpace(lines: seq<string>, line: string)
    ensures NonSpace(Flatten(lines + [line])) == NonSpace(Flatten(lines)) + NonSpace(line)
  {
    FlattenLast(lines, line);
    NonSpaceConcat(Flatten(lines), line);
  }

  lemma {:induction false} KeptNonSpace(boilerplate: string -> bool, lines: seq<string>)
    requires forall i | 0 <= i < |lines| :: OneLine(lines[i])
    ensures NonSpace(Flatten(Kept(boilerplate, lines))) == NonSpace(Flatten(NotBoilerplate(boilerplate, lines)))
  {
    if lines != [] {
      hide Value, OneLine, NonSpace, Flatten;
      var n := |lines| - 1;
      KeptNonSpace(boilerplate, lines[..n]);
      ValueIsGood(boilerplate, lines[n]);
      var kept, rest, value := Kept(boilerplate, lines[..n]), NotBoilerplate(boilerplate, lines[..n]), Value(lines[n]);
      LastNonSpace(kept, value);
      LastNonSpace(rest, lines[n]);
      NonSpaceBlank(value);
      if value == "" {
        assert NonSpace(value) == "" && NonSpace(Flatten(kept)) + "" == NonSpace(Flatten(kept));
        assert Kept(boilerplate, lines) == kept || Kept(boilerplate, lines) == kept + [value];
        assert NotBoilerplate(boilerplate, lines) == rest + [lines[n]];
      } else if boilerplate(value) {
        assert rest + [] == rest;
      }
    }
  }

  lemma {:induction false} FingerprintsNonSpace(paragraphs: seq<string>)
    ensures Flatten(Fingerprints(paragraphs)) == NonSpace(Flatten(paragraphs))
  {
    if paragraphs != [] {
      FingerprintsNonSpace(paragraphs[1..]);
      assert Fingerprints(paragraphs)[1..] == Fingerprints(paragraphs[1..]);
      NonSpaceConcat(paragraphs[0], Flatten(paragraphs[1..]));
    }
  }

  /**
   Whitespace aside: the paragraphs of the kept lines hold all text but that of boilerplate lines, and
   the cleaned text is theirs with every repeated paragraph left out.
   */
  lemma CleanKeepsVisibleText(boilerplate: string -> bool, text: string)
    ensures var prints := Fingerprints(Paragraphs(KeptText(boilerplate, text)));
      && Flatten(prints) == NonSpace(Flatten(NotBoilerplate(boilerplate, SplitLines(UnifyNewlines(text)))))
      && NonSpace(Clean(boilerplate, text)) == Flatten(Unique(prints))
  {
    hide Clean, GoodGroups, Fingerprints, Paragraphs, Rendered, Join, Deduplicated, Kept, NotBoilerplate, Flatten,
      NonSpace;
    var lines := SplitLines(UnifyNewlines(text));
    var paragraphs := Paragraphs(KeptText(boilerplate, text));
    SplitLinesOneLine(UnifyNewlines(text));
    KeptNonSpace(boilerplate, lines);
    JoinNonSpace("\n", Kept(boilerplate, lines));
    ParagraphsNonSpace(KeptText(boilerplate, text));
    FingerprintsNonSpace(paragraphs);
    var groups := CleanIsGroups(boilerplate, text);
    JoinNonSpace("\n\n", Rendered(groups));
    FingerprintsNonSpace(Rendered(groups));
    FirstOccurrences(paragraphs);
  }

  // ---------------------------------------------------------------- normalised text

  /**
   What is used of NFKC: normalising twice is normalising once, a part of a normalised text is
   normalised, and so are two normalised texts with a space or a newline between them, which combine
   with nothing.
   */
  ghost predicate IsNormalization(nfkc: string -> string) {
    && (forall s :: nfkc(nfkc(s)) == nfkc(s))
    && (forall s, i, j | 0 <= i <= j <= |s| && nfkc(s) == s :: nfkc(s[i..j]) == s[i..j])
    && (forall s, t | nfkc(s) == s && nfkc(t) == t :: nfkc(s + " " + t) == s + " " + t)
    && (forall s, t | nfkc(s) == s && nfkc(t) == t :: nfkc(s + "\n" + t) == s + "\n" + t)
  }

  predicate Normal(nfkc: string -> string, s: string) {
    nfkc(s) == s
  }

  lemma SliceIsNormal(nfkc: string -> string, s: string, i: nat, j: nat)
    requires IsNormalization(nfkc) && Normal(nfkc, s) && i <= j <= |s|
    ensures Normal(nfkc, s[i..j])
  {
  }

  lemma TailIsNormal(nfkc: string -> string, s: string, i: nat)
    requires IsNormalization(nfkc) && Normal(nfkc, s) && i <= |s|
    ensures Normal(nfkc, s[..i]) && Normal(nfkc, s[i..])
  {
    SliceIsNormal(nfkc, s, 0, i);
    SliceIsNormal(nfkc, s, i, |s|);
    assert s[0..i] == s[..i] && s[i..|s|] == s[i..];
  }

  lemma JoinIsNormal(nfkc: string -> string, s: string, c: char, t: string)
    requires IsNormalization(nfkc) && Normal(nfkc, s) && Normal(nfkc, t) && (c == ' ' || c == '\n')
    ensures Normal(nfkc, s + [c] + t)
  {
    assert [' '] == " " && ['\n'] == "\n";
  }

  /** The text before the first carriage return is kept as it is. */
  lemma {:induction false} UnifyPrefix(before: string, rest: string)
    requires '\r' !in before
    ensures UnifyNewlines(before + rest) == before + UnifyNewlines(rest)
  {
    if before == "" {
      assert before + rest == rest;
    } else {
      hide UnifyNewlines;
      var c, tail := before[0], before[1..];
      assert before == [c] + tail && before + rest == [c] + (tail + rest);
      UnifyPrefix(tail, rest);
      UnifyCons(c, tail + rest);
    }
  }

  lemma UnifyCons(c: char, rest: string)
    requires c != '\r'
    ensures UnifyNewlines([c] + rest) == [c] + UnifyNewlines(rest)
  {
    assert ([c] + rest)[1..] == rest;
  }

  lemma {:induction false} FirstReturn(s: string) returns (k: nat)
    ensures k <= |s| && '\r' !in s[..k] && (k < |s| ==> s[k] == '\r')
  {
    if s == "" || s[0] == '\r' {
      k := 0;
    } else {
      var n := FirstReturn(s[1..]);
      k := n + 1;
      assert s[..k] == [s[0]] + s[1..][..n];
    }
  }

  lemma UnifyAtReturn(rest: string, skip: nat)
    requires rest != "" && rest[0] == '\r'
    requires skip == if |rest| > 1 && rest[1] == '\n' then 2 else 1
    ensures UnifyNewlines(rest) == "\n" + UnifyNewlines(rest[skip..])
  {
  }

  lemma {:induction false} UnifyIsNormal(nfkc: string -> string, s: string)
    requires IsNormalization(nfkc) && Normal(nfkc, s)
    ensures Normal(nfkc, UnifyNewlines(s))
    decreases |s|
  {
    hide IsNormalization, Normal, UnifyNewlines;
    var k := FirstReturn(s);
    UnifyPrefix(s[..k], s[k..]);
    assert s == s[..k] + s[k..];
    TailIsNormal(nfkc, s, k);
    if k == |s| {
      assert s[k..] == "";
      UnifyNewlinesFixed("");
      assert s[..k] + "" == s;
    } else {
      var skip := if |s[k..]| > 1 && s[k..][1] == '\n' then 2 else 1;
      UnifyAtReturn(s[k..], skip);
      TailIsNormal(nfkc, s[k..], skip);
      UnifyIsNormal(nfkc, s[k..][skip..]);
      JoinIsNormal(nfkc, s[..k], '\n', UnifyNewlines(s[k..][skip..]));
      assert s[..k] + ("\n" + UnifyNewlines(s[k..][skip..])) == s[..k] + ['\n'] + UnifyNewlines(s[k..][skip..]);
    }
  }

  lemma {:induction false} CollapsePrefix(before: string, rest: string)
    requires forall i | 0 <= i < |before| :: !IsBlankChar(before[i])
    ensures Collapse(before + rest) == before + Collapse(rest)
  {
    if before == "" {
      assert before + rest == rest;
    } else {
      CollapsePrefix(before[1..], rest);
      assert (before + rest)[1..] == before[1..] + rest && before == [before[0]] + before[1..];
    }
  }

  predicate OnlyBlanks(s: string) {
    forall i | 0 <= i < |s| :: IsBlankChar(s[i])
  }

  predicate NoBlanks(s: string) {
    forall i | 0 <= i < |s| :: !IsBlankChar(s[i])
  }

  lemma {:induction false} BlanksAreDropped(gap: string, rest: string)
    requires OnlyBlanks(gap) && (rest != "" ==> !IsBlankChar(rest[0]))
    ensures DropBlanks(gap + rest) == rest
  {
    if gap == "" {
      assert gap + rest == rest;
    } else {
      assert (gap + rest)[1..] == gap[1..] + rest;
      BlanksAreDropped(gap[1..], rest);
    }
  }

  lemma CollapseGap(gap: string, rest: string)
    requires gap != "" && OnlyBlanks(gap) && (rest != "" ==> !IsBlankChar(rest[0]))
    ensures Collapse(gap + rest) == " " + Collapse(rest)
  {
    hide Collapse, DropBlanks, IsBlankChar;
    var first, more := gap[0], gap[1..];
    assert gap + rest == [first] + (more + rest);
    BlanksAreDropped(more, rest);
    CollapseFrom(first, more + rest);
  }

  lemma CollapseFrom(blank: char, rest: string)
    requires IsBlankChar(blank)
    ensures Collapse([blank] + rest) == " " + Collapse(DropBlanks(rest))
  {
    assert ([blank] + rest)[1..] == rest;
  }

  /** A run of blanks after a word and before what follows becomes one space, and the word stays. */
  lemma CollapseKeepsGaps(word: string, gap: string, rest: string)
    requires NoBlanks(word) && gap != "" && OnlyBlanks(gap) && (rest != "" ==> !IsBlankChar(rest[0]))
    ensures Collapse(word + gap + rest) == word + " " + Collapse(rest)
  {
    hide Collapse, IsBlankChar, OnlyBlanks;
    CollapsePrefix(word, gap + rest);
    hide NoBlanks;
    CollapseGap(gap, rest);
    assert word + gap + rest == word + (gap + rest);
    assert word + (" " + Collapse(rest)) == word + " " + Collapse(rest);
  }

  lemma BlanksAre(c: char)
    ensures IsBlankChar(c) <==> c in {' ', '\t', '\U{3000}'}
  {
  }

  lemma {:induction false} FirstBlank(s: string) returns (k: nat)
    ensures k <= |s| && (forall i | 0 <= i < k :: !IsBlankChar(s[i])) && (k < |s| ==> IsBlankChar(s[k]))
  {
    if s == "" || IsBlankChar(s[0]) {
      k := 0;
    } else {
      var n := FirstBlank(s[1..]);
      k := n + 1;
      assert forall i | 0 < i < k :: s[i] == s[1..][i - 1];
    }
  }

  lemma {:induction false} DropBlanksIsTail(s: string) returns (i: nat)
    ensures i <= |s| && DropBlanks(s) == s[i..]
  {
    i := 0;
    if s != "" && IsBlankChar(s[0]) {
      var n := DropBlanksIsTail(s[1..]);
      i := n + 1;
    }
  }

  lemma CollapseAtBlank(rest: string)
    requires rest != "" && IsBlankChar(rest[0])
    ensures Collapse(rest) == " " + Collapse(DropBlanks(rest[1..]))
  {
  }

  lemma {:induction false} CollapseIsNormal(nfkc: string -> string, s: string)
    requires IsNormalization(nfkc) && Normal(nfkc, s)
    ensures Normal(nfkc, Collapse(s))
    decreases |s|
  {
    hide IsNormalization, Normal, Collapse, DropBlanks;
    var k := FirstBlank(s);
    CollapsePrefix(s[..k], s[k..]);
    assert s == s[..k] + s[k..];
    TailIsNormal(nfkc, s, k);
    if k == |s| {
      assert s[k..] == "";
      CollapseFixed("");
      assert s[..k] + "" == s;
    } else {
      CollapseAtBlank(s[k..]);
      var i := DropBlanksIsTail(s[k..][1..]);
      var rest := s[k..][1..][i..];
      TailIsNormal(nfkc, s[k..], 1);
      TailIsNormal(nfkc, s[k..][1..], i);
      CollapseIsNormal(nfkc, rest);
      JoinIsNormal(nfkc, s[..k], ' ', Collapse(rest));
      assert s[..k] + (" " + Collapse(rest)) == s[..k] + [' '] + Collapse(rest);
    }
  }

  lemma StripIsNormal(nfkc: string -> string, s: string)
    requires IsNormalization(nfkc) && Normal(nfkc, s)
    ensures Normal(nfkc, Strip(s))
  {
    var i, j := StripIsSlice(s);
    SliceIsNormal(nfkc, s, i, j);
  }

  predicate AllNormal(nfkc: string -> string, parts: seq<string>) {
    forall i | 0 <= i < |parts| :: Normal(nfkc, parts[i])
  }

  lemma {:induction false} LinesAreNormal(nfkc: string -> string, s: string)
    requires IsNormalization(nfkc) && Normal(nfkc, s)
    ensures AllNormal(nfkc, SplitLines(s))
    decreases |s|
  {
    hide IsNormalization, Normal, AllNormal, FirstBreak;
    if s == "" {
      assert AllNormal(nfkc, []) by { NoneIsAllNormal(nfkc); }
    } else {
      var k := FirstBreak(s);
      TailIsNormal(nfkc, s, k);
      if k < |s| {
        TailIsNormal(nfkc, s, k + 1);
        LinesAreNormal(nfkc, s[k + 1..]);
        AllNormalCons(nfkc, s[..k], SplitLines(s[k + 1..]));
      } else {
        NoneIsAllNormal(nfkc);
        AllNormalCons(nfkc, s[..k], []);
      }
    }
  }

  lemma NoneIsAllNormal(nfkc: string -> string)
    ensures AllNormal(nfkc, [])
  {
  }

  lemma AllNormalCons(nfkc: string -> string, head: string, tail: seq<string>)
    requires Normal(nfkc, head) && AllNormal(nfkc, tail)
    ensures AllNormal(nfkc, [head] + tail)
  {
    hide Normal;
  }

  lemma {:induction false} KeptAreNormal(nfkc: string -> string, boilerplate: string -> bool, lines: seq<string>)
    requires IsNormalization(nfkc) && Normal(nfkc, "") && AllNormal(nfkc, lines)
    ensures AllNormal(nfkc, Kept(boilerplate, lines))
  {
    hide IsNormalization, Normal, Collapse, Strip;
    if lines != [] {
      var n := |lines| - 1;
      KeptAreNormal(nfkc, boilerplate, lines[..n]);
      CollapseIsNormal(nfkc, lines[n]);
      StripIsNormal(nfkc, Collapse(lines[n]));
    }
  }

  lemma {:induction false} JoinedIsNormal(nfkc: string -> string, parts: seq<string>)
    requires IsNormalization(nfkc) && Normal(nfkc, "") && AllNormal(nfkc, parts)
    ensures Normal(nfkc, Join("\n", parts)) && Normal(nfkc, Join("\n\n", parts))
  {
    hide IsNormalization, Normal;
    if |parts| > 1 {
      var head, line, gap := parts[0], Join("\n", parts[1..]), Join("\n\n", parts[1..]);
      JoinedIsNormal(nfkc, parts[1..]);
      JoinIsNormal(nfkc, head, '\n', line);
      JoinIsNormal(nfkc, "", '\n', gap);
      JoinIsNormal(nfkc, head, '\n', "" + ['\n'] + gap);
      assert head + ['\n'] + line == head + "\n" + line;
      assert head + ['\n'] + ("" + ['\n'] + gap) == head + "\n\n" + gap;
    }
  }

  lemma {:induction false} PiecesAreNormal(nfkc: string -> string, s: string)
    requires IsNormalization(nfkc) && Normal(nfkc, s)
    ensures AllNormal(nfkc, SplitGaps(s))
    decreases |s|
  {
    hide IsNormalization, Normal, FirstGap, GapLength;
    var (k, j) := NextGap(s);
    if k < |s| {
      TailIsNormal(nfkc, s, k);
      TailIsNormal(nfkc, s, j);
      PiecesAreNormal(nfkc, s[j..]);
    }
  }

  lemma {:induction false} StrippedAreNormal(nfkc: string -> string, pieces: seq<string>)
    requires IsNormalization(nfkc) && AllNormal(nfkc, pieces)
    ensures AllNormal(nfkc, StripAll(pieces))
  {
    hide IsNormalization, Normal, Strip;
    if pieces != [] {
      StripIsNormal(nfkc, pieces[0]);
      StrippedAreNormal(nfkc, pieces[1..]);
    }
  }

  lemma {:induction false} LeftAreNormal(nfkc: string -> string, paragraphs: seq<string>)
    requires AllNormal(nfkc, paragraphs)
    ensures AllNormal(nfkc, Deduplicated(paragraphs))
  {
    hide Normal, NonSpace, Fingerprints;
    if paragraphs != [] { LeftAreNormal(nfkc, paragraphs[..|paragraphs| - 1]); }
  }

  /** Cleaning a normalised text leaves it normalised. */
  lemma CleanIsNormal(nfkc: string -> string, boilerplate: string -> bool, text: string)
    requires IsNormalization(nfkc) && Normal(nfkc, text)
    ensures Normal(nfkc, Clean(boilerplate, text))
  {
    hide IsNormalization, Normal, AllNormal, UnifyNewlines, SplitLines, Kept, SplitGaps, StripAll, Deduplicated,
      Join, Strip;
    TailIsNormal(nfkc, text, 0);
    assert text[..0] == "";
    UnifyIsNormal(nfkc, text);
    LinesAreNormal(nfkc, UnifyNewlines(text));
    KeptAreNormal(nfkc, boilerplate, SplitLines(UnifyNewlines(text)));
    JoinedIsNormal(nfkc, Kept(boilerplate, SplitLines(UnifyNewlines(text))));
    var kept := KeptText(boilerplate, text);
    PiecesAreNormal(nfkc, kept);
    StrippedAreNormal(nfkc, SplitGaps(kept));
    LeftAreNormal(nfkc, Paragraphs(kept));
    JoinedIsNormal(nfkc, Deduplicated(Paragraphs(kept)));
    StripIsNormal(nfkc, RemoveDuplicates(kept));
  }

  /** Normalising and cleaning twice is doing it once. */
  lemma NormalizedCleanIsIdempotent(nfkc: string -> string, boilerplate: string -> bool, text: string)
    requires IsNormalization(nfkc)
    ensures var clean := Clean(boilerplate, nfkc(text)); Clean(boilerplate, nfkc(clean)) == clean
  {
    hide Clean;
    CleanIsNormal(nfkc, boilerplate, nfkc(text));
    CleanIsIdempotent(boilerplate, nfkc(text));
  }

  // ---------------------------------------------------------------- the methods

  method RemoveDuplicateParagraphs(text: string) returns (unique: string)
    ensures unique == RemoveDuplicates(text)
  {
    hide NonSpace, Paragraphs, Join;
    var paragraphs := Paragraphs(text);
    var seen: set<string>, left: seq<string> := {}, [];
    for i := 0 to |paragraphs|
      invariant left == Deduplicated(paragraphs[..i])
      invariant forall p :: p in seen <==> p in Fingerprints(paragraphs[..i])
    {
      assert paragraphs[..i + 1][..i] == paragraphs[..i];
      var fingerprint := NonSpace(paragraphs[i]);
      assert Fingerprints(paragraphs[..i + 1]) == Fingerprints(paragraphs[..i]) + [fingerprint];
      if fingerprint !in seen {
        seen := seen + {fingerprint};
        left := left + [paragraphs[i]];
      }
    }
    assert paragraphs[..|paragraphs|] == paragraphs;
    unique := Join("\n\n", left);
  }

  /** `nfkc` stands for the Unicode normalisation. */
  method CleanText(nfkc: string -> string, boilerplate: string -> bool, text: string) returns (clean: string)
    ensures clean == Clean(boilerplate, nfkc(text))
    ensures IsNormalization(nfkc) ==> nfkc(clean) == clean && Clean(boilerplate, nfkc(clean)) == clean
  {
    hide Value, Join, Strip, SplitLines, UnifyNewlines, Paragraphs, Deduplicated;
    var input := SplitLines(UnifyNewlines(nfkc(text)));
    var lines := [];
    for i := 0 to |input|
      invariant lines == Kept(boilerplate, input[..i])
    {
      assert input[..i + 1][..i] == input[..i];
      var value := Value(input[i]);
      if value != "" && !boilerplate(value) {
        lines := lines + [value];
      } else if value == "" && lines != [] && lines[|lines| - 1] != "" {
        lines := lines + [""];
      }
    }
    assert input[..|input|] == input;
    var unique := RemoveDuplicateParagraphs(Join("\n", lines));
    clean := Strip(unique);
    if IsNormalization(nfkc) {
      CleanIsNormal(nfkc, boilerplate, nfkc(text));
      NormalizedCleanIsIdempotent(nfkc, boilerplate, text);
    }
  }
}
