/**
 How the chunker of `backend/app/chunking/heading.py` fills its chunks, in lengths and settings: when a
 chunk takes in a further part, when it ends before one, and that this leaves no choice.
 */
module ChunkPacking {
  import opened Chunking
  import opened Sequences
  import opened Text

  /** A chunk that opens with the text repeated from the one before and goes on with some parts. */
  function Built(opening: string, parts: seq<string>): string {
    Join("\n\n", (if opening == "" then [] else [opening]) + parts)
  }

  /**
   The k-th part may be taken in: the chunk with it is no longer than `max`, and no longer than
   `target` either unless the chunk before it was shorter than `min`.
   */
  predicate TakesIn(cfg: Config, opening: string, parts: seq<string>, k: nat)
    requires k < |parts|
  {
    var before, after := |Built(opening, parts[..k])|, |Built(opening, parts[..k + 1])|;
    after <= cfg.max && (after <= cfg.target || before < cfg.min)
  }

  /** Each part after the first was taken in by that rule. */
  predicate GrownByRule(cfg: Config, opening: string, parts: seq<string>) {
    forall k: nat | 0 < k < |parts| :: TakesIn(cfg, opening, parts, k)
  }

  /**
   The chunk ended before a part because with that part it would be longer than `max`, or longer than
   `target` while it has `min` characters already.
   */
  predicate EndedByRule(cfg: Config, chunk: string, part: string) {
    var longer := |chunk| + 2 + |part|;
    longer > cfg.max || (longer > cfg.target && |chunk| >= cfg.min)
  }

  /** What the i-th chunk repeats of the one before it. */
  function Opening(cfg: Config, chunks: seq<string>, i: nat): string
    requires i < |chunks|
  {
    if i == 0 then "" else Overlap(cfg, chunks[i - 1])
  }

  /** The groups of parts make up the chunks, each of them grown and ended by the rules. */
  predicate PackedByRule(cfg: Config, groups: seq<seq<string>>, chunks: seq<string>) {
    && |groups| == |chunks|
    && (forall i | 0 <= i < |groups| ::
      && groups[i] != [] && chunks[i] == Built(Opening(cfg, chunks, i), groups[i])
      && GrownByRule(cfg, Opening(cfg, chunks, i), groups[i]))
    && (forall i | 0 < i < |groups| :: EndedByRule(cfg, chunks[i - 1], groups[i][0]))
  }

  /** The same from a chunk on that opens with `opening`. */
  predicate PackedFrom(cfg: Config, opening: string, groups: seq<seq<string>>, chunks: seq<string>)
    decreases |groups|
  {
    && |groups| == |chunks| > 0
    && groups[0] != [] && chunks[0] == Built(opening, groups[0]) && GrownByRule(cfg, opening, groups[0])
    && (|groups| > 1 ==>
      && groups[1] != [] && EndedByRule(cfg, chunks[0], groups[1][0])
      && PackedFrom(cfg, Overlap(cfg, chunks[0]), groups[1..], chunks[1..]))
  }

  // ---------------------------------------------------------------- one part more

  lemma BuiltOne(opening: string, part: string)
    ensures Built(opening, [part]) == if opening == "" then part else opening + "\n\n" + part
  {
    if opening == "" {
      assert [] + [part] == [part];
    } else {
      assert [opening] + [part] == [opening, part] && [opening, part][1..] == [part];
      JoinOne("\n\n", part);
    }
  }

  lemma BuiltMore(opening: string, parts: seq<string>, part: string)
    requires parts != []
    ensures Built(opening, parts + [part]) == Built(opening, parts) + "\n\n" + part
  {
    hide Join;
    var lead := if opening == "" then [] else [opening];
    assert lead + (parts + [part]) == (lead + parts) + [part];
    JoinConcat("\n\n", lead + parts, [part]);
    JoinOne("\n\n", part);
  }

  lemma JoinOne(sep: string, part: string)
    ensures Join(sep, [part]) == part
  {
  }

  lemma GrownAlone(cfg: Config, opening: string, part: string)
    ensures GrownByRule(cfg, opening, [part])
  {
  }

  lemma GrownMore(cfg: Config, opening: string, parts: seq<string>, part: string)
    requires parts != []
    ensures GrownByRule(cfg, opening, parts + [part]) <==>
      && GrownByRule(cfg, opening, parts)
      && (var before, after := |Built(opening, parts)|, |Built(opening, parts + [part])|;
          after <= cfg.max && (after <= cfg.target || before < cfg.min))
  {
    hide TakesIn;
    var n, more := |parts|, parts + [part];
    forall k: nat | 0 < k < n ensures TakesIn(cfg, opening, more, k) <==> TakesIn(cfg, opening, parts, k) {
      TakesInPrefix(cfg, opening, more, n, k);
      assert more[..n] == parts;
    }
    TakesInLast(cfg, opening, parts, part);
  }

  lemma TakesInPrefix(cfg: Config, opening: string, parts: seq<string>, n: nat, k: nat)
    requires k < n <= |parts|
    ensures TakesIn(cfg, opening, parts[..n], k) <==> TakesIn(cfg, opening, parts, k)
  {
    assert parts[..n][..k] == parts[..k] && parts[..n][..k + 1] == parts[..k + 1];
  }

  lemma TakesInLast(cfg: Config, opening: string, parts: seq<string>, part: string)
    ensures var before, after := |Built(opening, parts)|, |Built(opening, parts + [part])|;
      TakesIn(cfg, opening, parts + [part], |parts|) <==>
        after <= cfg.max && (after <= cfg.target || before < cfg.min)
  {
    assert (parts + [part])[..|parts|] == parts && (parts + [part])[..|parts| + 1] == parts + [part];
  }

  lemma CandidateIsBuilt(opening: string, parts: seq<string>, part: string)
    requires parts != [] && Stripped(Built(opening, parts)) && Built(opening, parts) != ""
    requires Stripped(part) && part != ""
    ensures Candidate(Built(opening, parts), part) == Built(opening, parts + [part])
    ensures Stripped(Built(opening, parts + [part])) && Built(opening, parts + [part]) != ""
    ensures |Built(opening, parts + [part])| == |Built(opening, parts)| + 2 + |part|
  {
    hide Built;
    BuiltMore(opening, parts, part);
    JoinPart(Built(opening, parts), part);
  }

  lemma NextIsBuilt(cfg: Config, chunk: string, part: string)
    requires Stripped(chunk) && chunk != "" && Stripped(part) && part != ""
    ensures StartNext(cfg, chunk, part) == Built(Overlap(cfg, chunk), [part])
    ensures Stripped(Built(Overlap(cfg, chunk), [part])) && Built(Overlap(cfg, chunk), [part]) != ""
  {
    hide Built, Overlap;
    BuiltOne(Overlap(cfg, chunk), part);
    JoinPart(Overlap(cfg, chunk), part);
  }

  lemma FlushesByRule(cfg: Config, opening: string, parts: seq<string>, part: string)
    requires parts != [] && Stripped(Built(opening, parts)) && Built(opening, parts) != ""
    requires Stripped(part) && part != ""
    ensures ShouldFlush(cfg, Built(opening, parts), part) <==> EndedByRule(cfg, Built(opening, parts), part)
    ensures GrownByRule(cfg, opening, parts) ==>
      (ShouldFlush(cfg, Built(opening, parts), part) <==> !GrownByRule(cfg, opening, parts + [part]))
  {
    hide Built, GrownByRule, Candidate;
    CandidateIsBuilt(opening, parts, part);
    GrownMore(cfg, opening, parts, part);
  }

  // ---------------------------------------------------------------- the packing keeps the rules

  /** The packing from a chunk on that has been begun with some parts. */
  lemma {:induction false} PackKeepsRules(cfg: Config, opening: string, begun: seq<string>, parts: seq<string>)
    returns (groups: seq<seq<string>>)
    requires begun != [] && GrownByRule(cfg, opening, begun) && Tight(parts)
    requires Stripped(Built(opening, begun)) && Built(opening, begun) != ""
    ensures Flatten(groups) == begun + parts
    ensures PackedFrom(cfg, opening, groups, Pack(cfg, Built(opening, begun), parts))
    ensures groups != [] && begun <= groups[0]
    decreases |parts|
  {
    hide Built, GrownByRule, EndedByRule, ShouldFlush, Candidate, StartNext, Overlap, Flatten, PackedFrom, Stripped;
    var current := Built(opening, begun);
    if parts == [] {
      groups := [begun];
      FlattenCons(begun, []);
      FlattenNone();
      assert [begun] + [] == [begun] && begun + [] == begun;
      PackedLast(cfg, opening, begun);
    } else {
      var part, rest := parts[0], parts[1..];
      FlushesByRule(cfg, opening, begun, part);
      if ShouldFlush(cfg, current, part) {
        NextIsBuilt(cfg, current, part);
        GrownAlone(cfg, Overlap(cfg, current), part);
        var later := PackKeepsRules(cfg, Overlap(cfg, current), [part], rest);
        groups := [begun] + later;
        FlattenCons(begun, later);
        assert [part] + rest == parts;
        PackedCons(cfg, opening, begun, later, Pack(cfg, StartNext(cfg, current, part), rest));
      } else {
        CandidateIsBuilt(opening, begun, part);
        groups := PackKeepsRules(cfg, opening, begun + [part], rest);
        assert begun + [part] + rest == begun + parts;
      }
    }
  }

  lemma FlattenNone()
    ensures Flatten<string>([]) == []
  {
  }

  lemma PackedLast(cfg: Config, opening: string, parts: seq<string>)
    requires parts != [] && GrownByRule(cfg, opening, parts) && Built(opening, parts) != ""
    ensures PackedFrom(cfg, opening, [parts], Pack(cfg, Built(opening, parts), []))
  {
    hide Built, GrownByRule;
  }

  lemma PackedCons(
    cfg: Config, opening: string, parts: seq<string>, groups: seq<seq<string>>, chunks: seq<string>)
    requires parts != [] && GrownByRule(cfg, opening, parts)
    requires PackedFrom(cfg, Overlap(cfg, Built(opening, parts)), groups, chunks)
    requires groups != [] && groups[0] != [] && EndedByRule(cfg, Built(opening, parts), groups[0][0])
    ensures PackedFrom(cfg, opening, [parts] + groups, [Built(opening, parts)] + chunks)
  {
    hide Built, GrownByRule, EndedByRule, Overlap;
    assert ([parts] + groups)[1..] == groups && ([Built(opening, parts)] + chunks)[1..] == chunks;
  }

  lemma {:induction false} PackedThroughout(cfg: Config, groups: seq<seq<string>>, chunks: seq<string>, n: nat)
    requires n < |groups| == |chunks|
    ensures PackedFrom(cfg, Opening(cfg, chunks, n), groups[n..], chunks[n..]) <==>
      && (forall i | n <= i < |groups| ::
        && groups[i] != [] && chunks[i] == Built(Opening(cfg, chunks, i), groups[i])
        && GrownByRule(cfg, Opening(cfg, chunks, i), groups[i]))
      && (forall i | n < i < |groups| :: EndedByRule(cfg, chunks[i - 1], groups[i][0]))
    decreases |groups| - n
  {
    hide Built, GrownByRule, EndedByRule, Overlap;
    if n + 1 < |groups| {
      PackedThroughout(cfg, groups, chunks, n + 1);
      assert groups[n..][1..] == groups[n + 1..] && chunks[n..][1..] == chunks[n + 1..];
      assert groups[n..][1] == groups[n + 1];
    }
  }

  /**
   The chunks of a section are the parts of its paragraphs in consecutive groups. A chunk takes in a
   further part exactly under the rule for growing and ends before one exactly under the rule for ending.
   */
  lemma ChunksKeepRules(cfg: Config, body: string) returns (groups: seq<seq<string>>)
    ensures Flatten(groups) == AllParts(cfg, Paragraphs(body))
    ensures PackedByRule(cfg, groups, ChunksOf(cfg, body))
  {
    hide Paragraphs, AllParts, Pack, PackedFrom, Tight, Built, GrownByRule, EndedByRule, Opening, Flatten, Stripped;
    var paragraphs := Paragraphs(body);
    if paragraphs == [] {
      groups := [];
      BlankBodyChunks(cfg, body);
      FlattenNone();
      NoParts(cfg);
    } else {
      var parts := AllParts(cfg, paragraphs);
      PartsAreTight(cfg, body);
      var first, rest := parts[0], parts[1..];
      assert parts == [first] + rest;
      TightHead(first, rest);
      BuiltOne("", first);
      GrownAlone(cfg, "", first);
      PackFromPart(cfg, first, rest);
      groups := PackKeepsRules(cfg, "", [first], rest);
      var chunks := ChunksOf(cfg, body);
      assert groups[0..] == groups && chunks[0..] == chunks;
      PackedLengths(cfg, "", groups, chunks);
      OpeningFirst(cfg, chunks);
      PackedThroughout(cfg, groups, chunks, 0);
    }
  }

  lemma OpeningFirst(cfg: Config, chunks: seq<string>)
    requires chunks != []
    ensures Opening(cfg, chunks, 0) == ""
  {
  }

  lemma PackedLengths(cfg: Config, opening: string, groups: seq<seq<string>>, chunks: seq<string>)
    requires PackedFrom(cfg, opening, groups, chunks)
    ensures |groups| == |chunks| > 0
  {
  }

  lemma NoParts(cfg: Config)
    ensures AllParts(cfg, []) == []
  {
  }

  lemma TightHead(first: string, rest: seq<string>)
    requires Tight([first] + rest)
    ensures first != "" && Stripped(first) && Tight(rest)
  {
    var all := [first] + rest;
    assert all[0] == first && forall i | 0 <= i < |rest| :: rest[i] == all[i + 1];
  }

  lemma PartsAreTight(cfg: Config, body: string)
    requires Paragraphs(body) != []
    ensures Tight(AllParts(cfg, Paragraphs(body))) && AllParts(cfg, Paragraphs(body)) != []
  {
    hide AllParts, SplitGaps, StripAll;
    StripAllTight(SplitGaps(body));
    AllPartsLossless(cfg, Paragraphs(body));
  }

  // ---------------------------------------------------------------- the rules leave no choice

  lemma SameEnd(a: seq<string>, first: seq<string>, rest: seq<string>)
    requires a <= first && first + rest == a
    ensures first == a && rest == []
  {
  }

  lemma SomeFlat(groups: seq<seq<string>>)
    requires groups != [] && groups[0] != []
    ensures Flatten(groups) != [] && Flatten(groups)[0] == groups[0][0]
  {
  }

  /** Chunks that are packed by the rules from a chunk on are those the packing gives. */
  lemma {:induction false} RulesGivePack(
    cfg: Config, opening: string, begun: seq<string>, parts: seq<string>, groups: seq<seq<string>>, chunks: seq<string>)
    requires begun != [] && Tight(parts) && Stripped(Built(opening, begun)) && Built(opening, begun) != ""
    requires PackedFrom(cfg, opening, groups, chunks)
    requires groups != [] && begun <= groups[0] && Flatten(groups) == begun + parts
    ensures chunks == Pack(cfg, Built(opening, begun), parts)
    decreases |parts|
  {
    hide Built, GrownByRule, EndedByRule, ShouldFlush, Candidate, StartNext, Overlap, Flatten, Stripped;
    var group, later := groups[0], groups[1..];
    assert groups == [group] + later;
    FlattenCons(group, later);
    if group == begun {
      assert Flatten(later) == parts by { assert (begun + Flatten(later))[|begun|..] == (begun + parts)[|begun|..]; }
      if later == [] {
        FlattenNone();
        assert chunks[1..] == [] && chunks == [chunks[0]];
      } else {
        SomeFlat(later);
        var part, rest := parts[0], parts[1..];
        assert parts == [part] + rest;
        FlushesByRule(cfg, opening, begun, part);
        NextIsBuilt(cfg, chunks[0], part);
        assert [part] <= later[0];
        RulesGivePack(cfg, Overlap(cfg, chunks[0]), [part], rest, later, chunks[1..]);
        assert chunks == [chunks[0]] + chunks[1..];
      }
    } else {
      var n := |begun|;
      assert (begun + parts)[n] == parts[0] && (group + Flatten(later))[n] == group[n];
      var part, rest := parts[0], parts[1..];
      assert parts == [part] + rest;
      assert begun + [part] + rest == begun + parts;
      assert group[..n + 1] == begun + [part];
      GrownPrefix(cfg, opening, group, n + 1);
      GrownPrefix(cfg, opening, group, n);
      assert group[..n] == begun;
      FlushesByRule(cfg, opening, begun, part);
      CandidateIsBuilt(opening, begun, part);
      RulesGivePack(cfg, opening, begun + [part], rest, groups, chunks);
    }
  }

  lemma GrownPrefix(cfg: Config, opening: string, parts: seq<string>, n: nat)
    requires n <= |parts| && GrownByRule(cfg, opening, parts)
    ensures GrownByRule(cfg, opening, parts[..n])
  {
    hide TakesIn;
    forall k: nat | 0 < k < n ensures TakesIn(cfg, opening, parts[..n], k) {
      TakesInPrefix(cfg, opening, parts, n, k);
    }
  }

  /** So the chunks of a section are the only ones that its parts can be packed into by the rules. */
  lemma ChunksAreDetermined(cfg: Config, body: string, groups: seq<seq<string>>, chunks: seq<string>)
    requires Flatten(groups) == AllParts(cfg, Paragraphs(body)) && PackedByRule(cfg, groups, chunks)
    ensures chunks == ChunksOf(cfg, body)
  {
    hide Paragraphs, AllParts, Pack, PackedFrom, Tight, Built, GrownByRule, EndedByRule, Opening, Flatten, Stripped;
    var paragraphs := Paragraphs(body);
    if paragraphs == [] {
      BlankBodyChunks(cfg, body);
      NoParts(cfg);
      if groups != [] { SomeFlat(groups); }
    } else {
      var parts := AllParts(cfg, paragraphs);
      PartsAreTight(cfg, body);
      if groups == [] { FlattenNone(); }
      SomeFlat(groups);
      var first, rest := parts[0], parts[1..];
      assert parts == [first] + rest && [first] <= groups[0];
      TightHead(first, rest);
      BuiltOne("", first);
      PackFromPart(cfg, first, rest);
      assert groups[0..] == groups && chunks[0..] == chunks;
      OpeningFirst(cfg, chunks);
      PackedThroughout(cfg, groups, chunks, 0);
      RulesGivePack(cfg, "", [first], rest, groups, chunks);
    }
  }

  // ---------------------------------------------------------------- overlap and cut

  /** What a chunk repeats is the longest suffix of at most `overlap` characters that does not start with a space. */
  lemma OverlapIsLongest(cfg: Config, chunk: string, n: nat)
    requires |Overlap(cfg, chunk)| < n <= cfg.overlap && n <= |chunk|
    ensures IsSpace(chunk[|chunk| - n])
  {
    hide IsSpace, LStrip, LastChars;
    var tail := LastChars(chunk, cfg.overlap);
    LastCharsAt(chunk, cfg.overlap, n);
    StripsBlank(tail, n);
  }

  lemma LastCharsAt(s: string, most: nat, n: nat)
    requires 0 < n <= most && n <= |s|
    ensures var tail := LastChars(s, most); n <= |tail| && tail[|tail| - n] == s[|s| - n]
  {
  }

  lemma StripsBlank(s: string, n: nat)
    requires |LStrip(s)| < n <= |s|
    ensures IsSpace(s[|s| - n])
  {
    hide IsSpace, LStrip, Blank;
    LStripSuffix(s);
    BlankAt(s[..|s| - |LStrip(s)|], |s| - n);
  }

  lemma BlankAt(s: string, i: nat)
    requires Blank(s) && i < |s|
    ensures IsSpace(s[i])
  {
    hide IsSpace;
  }

  /**
   A long text is cut after its last separator among the characters from a third of the limit on, up to
   one past it, and at the limit when there is none.
   */
  lemma CutAfterLastSeparator(remaining: string, limit: nat)
    requires 1 <= limit < |remaining|
    ensures var cut := CutPoint(remaining, limit);
      if exists i :: LateSeparator(remaining, limit, i)
      then LateSeparator(remaining, limit, cut - 1) && forall i | LateSeparator(remaining, limit, i) :: i < cut
      else cut == limit
  {
    SeparatorsAre();
    hide IsSeparator;
    var window := remaining[..limit + 1];
    var last := LastSeparator(window, MinimumBoundary(limit), limit + 1);
    if i :| LateSeparator(remaining, limit, i) { assert window[i] == remaining[i]; }
    if last >= 0 { assert LateSeparator(remaining, limit, last); }
    forall i | LateSeparator(remaining, limit, i) ensures i <= last {
      assert window[i] == remaining[i];
    }
  }

  /** A newline, a full stop, an exclamation or question mark, a semicolon, a comma or a space, late enough. */
  predicate LateSeparator(text: string, limit: nat, i: int) {
    && 1 <= i <= limit < |text| && 3 * i > limit - 3
    && text[i] in {'\n', '\U{3002}', '\U{FF01}', '\U{FF1F}', '\U{FF1B}', ';', '\U{FF0C}', ',', ' '}
  }

  lemma SeparatorsAre()
    ensures forall c :: IsSeparator(c) <==>
      c in {'\n', '\U{3002}', '\U{FF01}', '\U{FF1F}', '\U{FF1B}', ';', '\U{FF0C}', ',', ' '}
  {
  }
}
