/**
 The heading paths of the chunker (`backend/app/chunking/heading.py`): what a heading says, and which
 earlier headings the entries of its path are.
 */
module SectionPaths {
  import opened Chunking
  import opened Text

  /** How many hashes a text starts with. */
  lemma {:induction false} HashesAreDropped(s: string)
    ensures |DropHashes(s)| <= |s|
    ensures var n := |s| - |DropHashes(s)|;
      && DropHashes(s) == s[n..] && (forall i | 0 <= i < n :: s[i] == '#') && (n < |s| ==> s[n] != '#')
  {
    if s != "" && s[0] == '#' { HashesAreDropped(s[1..]); }
  }

  /** A heading's level is the number of its leading hashes, or 1, and its title is what follows them. */
  lemma HeadingSays(stripped: string, n: nat)
    requires n <= |stripped| && (forall i | 0 <= i < n :: stripped[i] == '#') && (n < |stripped| ==> stripped[n] != '#')
    ensures HeadingLevel(stripped) == if n > 0 then n else 1
    ensures CleanTitle(stripped) == Strip(stripped[n..])
  {
    hide Strip;
    HashesAreDropped(stripped);
  }

  /**
   The path of a heading is as long as its level, or one longer than the path before it if that is
   shorter; all but its last entry are those of the path before it.
   */
  lemma {:induction false} PathFollows(stack: seq<string>, headings: seq<string>, k: nat)
    requires k < |headings|
    ensures var path, before := Paths(stack, headings)[k].path,
                                if k == 0 then stack else Paths(stack, headings)[k - 1].path;
      && 0 < |path| <= |before| + 1 && path[..|path| - 1] == before[..|path| - 1]
      && (|path| == HeadingLevel(headings[k]) || (|path| == |before| + 1 && |path| < HeadingLevel(headings[k])))
    decreases |headings|
  {
    hide CleanTitle, HeadingLevel, PushHeading;
    var first := PushHeading(stack, headings[0]);
    PushFollows(stack, headings[0]);
    if k > 0 {
      PathFollows(first, headings[1..], k - 1);
      assert Paths(stack, headings)[0].path == first;
      assert Paths(stack, headings)[k] == Paths(first, headings[1..])[k - 1];
      if k > 1 { assert Paths(stack, headings)[k - 1] == Paths(first, headings[1..])[k - 2]; }
      assert headings[1..][k - 1] == headings[k];
    }
  }

  lemma PushFollows(stack: seq<string>, stripped: string)
    ensures var path, level := PushHeading(stack, stripped), HeadingLevel(stripped);
      && 0 < |path| <= |stack| + 1 && path[..|path| - 1] == stack[..|path| - 1]
      && (|path| == level || (|path| == |stack| + 1 && |path| < level))
  {
    hide CleanTitle, HeadingLevel;
  }

  /**
   An entry of a path before its last is the title of the nearest earlier heading at that depth; all
   headings between the two lie deeper, so it was still open.
   */
  lemma {:induction false} EntriesAreOpenHeadings(headings: seq<string>, k: nat, d: nat) returns (j: nat)
    requires k < |headings| && d + 1 < |Paths([], headings)[k].path|
    ensures j < k && |Paths([], headings)[j].path| == d + 1
    ensures Paths([], headings)[j].title == Paths([], headings)[k].path[d] == CleanTitle(headings[j])
    ensures forall i | j < i < k :: |Paths([], headings)[i].path| > d + 1
    decreases k
  {
    hide CleanTitle, HeadingLevel, Paths;
    var paths := Paths([], headings);
    PathFollows([], headings, k);
    PathsEndInTitle([], headings);
    var path, before := paths[k].path, paths[k - 1].path;
    assert path[d] == path[..|path| - 1][d] == before[..|path| - 1][d] == before[d];
    if |before| == d + 1 {
      j := k - 1;
    } else {
      j := EntriesAreOpenHeadings(headings, k - 1, d);
    }
  }

  // ---------------------------------------------------------------- which section a draft is from

  /** The drafts are the chunks of the sections in order, each with the path and title of its section. */
  predicate MadeOf(cfg: Config, drafts: seq<Draft>, sections: seq<Section>)
    decreases |sections|
  {
    if sections == [] then drafts == []
    else
      var section, chunks := sections[0], ChunksOf(cfg, SectionText(sections[0]));
      && |chunks| <= |drafts|
      && (forall k | 0 <= k < |chunks| ::
        drafts[k].content == chunks[k] && drafts[k].path == section.path && drafts[k].title == section.title)
      && MadeOf(cfg, drafts[|chunks|..], sections[1..])
  }

  lemma {:induction false} NumberedConcat(a: seq<RawChunk>, b: seq<RawChunk>, index: nat)
    ensures Numbered(a + b, index) == Numbered(a, index) + Numbered(b, index + |a|)
  {
    hide Numbered, Strip;
    if a == [] {
      NumberDone(index);
      assert a + b == b;
    } else {
      var first, rest := a[0], a[1..];
      assert a == [first] + rest && a + b == [first] + (rest + b);
      NumberCons(first, rest, index);
      NumberCons(first, rest + b, index);
      NumberedConcat(rest, b, index + 1);
      var one, few, many := Numbered([first], index), Numbered(rest, index + 1), Numbered(b, index + |a|);
      assert one + (few + many) == (one + few) + many;
    }
  }

  lemma NumberCons(first: RawChunk, rest: seq<RawChunk>, index: nat)
    ensures Numbered([first] + rest, index) == Numbered([first], index) + Numbered(rest, index + 1)
  {
    hide Strip;
    assert ([first] + rest)[1..] == rest && [first][1..] == [];
    assert Numbered([], index + 1) == [];
  }

  lemma {:induction false} NumberedMadeOf(cfg: Config, sections: seq<Section>, index: nat)
    ensures MadeOf(cfg, Numbered(RawChunks(cfg, sections), index), sections)
    decreases |sections|
  {
    hide ChunksOf, Restore, NonSpace, Stripped, Strip, SectionText, Numbered, AllVisible;
    if sections == [] {
      NumberDone(index);
      RawDone(cfg);
    } else {
      var section, rest := sections[0], sections[1..];
      var raw := Labelled(SectionChunks(cfg, section), section);
      RawChunksVisible(cfg, [section]);
      assert RawChunks(cfg, [section]) == raw + [] == raw by { RawDone(cfg); }
      NumberedIndexes(raw, index);
      NumberedConcat(raw, RawChunks(cfg, rest), index);
      NumberedMadeOf(cfg, rest, index + |raw|);
      var drafts := Numbered(raw, index) + Numbered(RawChunks(cfg, rest), index + |raw|);
      assert drafts[|raw|..] == Numbered(RawChunks(cfg, rest), index + |raw|);
    }
  }

  lemma DraftsMadeOfSections(cfg: Config, heading: Classifier, text: string)
    ensures Normalized(text) != "" ==>
      MadeOf(cfg, Drafts(cfg, heading, text), SectionsOf(heading, Normalized(text)))
  {
    hide SectionsOf, Strip, UnifyNewlines, RawChunks, Numbered, MadeOf;
    NumberedMadeOf(cfg, SectionsOf(heading, Normalized(text)), 0);
  }
}
