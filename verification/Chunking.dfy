/**
 The heading-aware chunker of `backend/app/chunking/heading.py`.

 Each loop of the source is a method here, proved equal to a recursive function; what the
 source promises (nothing is lost, chunks overlap, lengths are bounded) is proved of the
 functions. Which lines are headings is left to an arbitrary classifier.
 */
module Chunking {
  import opened Sequences
  import opened Text
  import opened Wrappers

  datatype Settings = Settings(target: int, min: int, max: int, overlap: int) {
    /** What `ChunkingConfig.__post_init__` accepts. */
    predicate Valid() {
      0 <= overlap < target && 0 < min <= target <= max
    }
  }

  type Config = c: Settings | c.Valid() witness Settings(800, 160, 1200, 120)

  datatype Section = Section(path: seq<string>, title: Option<string>, body: string)

  datatype Draft = Draft(index: nat, content: string, path: seq<string>, title: Option<string>, charCount: nat)

  type Classifier = string -> bool

  // ---------------------------------------------------------------- the hard splitter

  const SEPARATORS: string := ['\n', '\U{3002}', '\U{FF01}', '\U{FF1F}', '\U{FF1B}', ';', '\U{FF0C}', ',', ' ']

  predicate IsSeparator(c: char) {
    c == '\n' || c == '\U{3002}' || c == '\U{FF01}' || c == '\U{FF1F}' || c == '\U{FF1B}' || c == ';'
    || c == '\U{FF0C}' || c == ',' || c == ' '
  }

  function MinimumBoundary(limit: nat): nat {
    if limit / 3 >= 1 then limit / 3 else 1
  }

  /** `window.rfind(c, from)` for the first `n` characters of the window. */
  function RFind(window: string, c: char, from: nat, n: nat): (i: int)
    requires n <= |window|
    ensures i == -1 || (from <= i < n && window[i] == c)
    ensures forall k | from <= k < n && i < k :: window[k] != c
  {
    if n <= from then -1
    else if window[n - 1] == c then n - 1
    else RFind(window, c, from, n - 1)
  }

  /** The last position from `from` on that holds any separator, -1 when there is none. */
  function LastSeparator(window: string, from: nat, n: nat): (i: int)
    requires n <= |window|
    ensures i == -1 || (from <= i < n && IsSeparator(window[i]))
    ensures forall k | from <= k < n && i < k :: !IsSeparator(window[k])
  {
    if n <= from then -1
    else if IsSeparator(window[n - 1]) then n - 1
    else LastSeparator(window, from, n - 1)
  }

  /** Where a text longer than `limit` is cut: after its last late separator, else at `limit`. */
  function CutPoint(remaining: string, limit: nat): (cut: nat)
    requires 1 <= limit < |remaining|
    ensures 1 <= cut <= limit + 1
    ensures 3 * cut > limit
    ensures cut == limit + 1 ==> IsSeparator(remaining[limit])
  {
    var boundary := LastSeparator(remaining[..limit + 1], MinimumBoundary(limit), limit + 1);
    if boundary >= 0 then boundary + 1 else limit
  }

  function NonEmpty(piece: string): seq<string> {
    if piece == "" then [] else [piece]
  }

  /** The pieces into which the splitter cuts a text. */
  function SplitPieces(remaining: string, limit: nat): seq<string>
    requires limit >= 1
    decreases |remaining|
  {
    if |remaining| <= limit then NonEmpty(remaining)
    else
      var cut := CutPoint(remaining, limit);
      NonEmpty(Strip(remaining[..cut])) + SplitPieces(Strip(remaining[cut..]), limit)
  }

  predicate NoLongerThan(pieces: seq<string>, bound: int) {
    forall i | 0 <= i < |pieces| :: |pieces[i]| <= bound
  }

  /** A piece can be one character over the limit: the separator it was cut after. */
  lemma {:induction false} SplitPiecesBounded(remaining: string, limit: nat)
    requires limit >= 1 && Stripped(remaining)
    ensures Tight(SplitPieces(remaining, limit))
    ensures NoLongerThan(SplitPieces(remaining, limit), limit + 1)
    decreases |remaining|
  {
    hide Strip, Stripped, CutPoint;
    if |remaining| > limit {
      SplitPiecesBounded(Strip(remaining[CutPoint(remaining, limit)..]), limit);
    }
  }

  /** Hard splitting loses whitespace only. */
  lemma {:induction false} SplitPiecesLossless(remaining: string, limit: nat)
    requires limit >= 1 && Stripped(remaining)
    ensures NonSpace(Flatten(SplitPieces(remaining, limit))) == NonSpace(remaining)
    decreases |remaining|
  {
    hide Strip, CutPoint, NonSpace, Flatten;
    if |remaining| > limit {
      var cut := CutPoint(remaining, limit);
      var head, tail := remaining[..cut], remaining[cut..];
      var rest := SplitPieces(Strip(tail), limit);
      SplitPiecesLossless(Strip(tail), limit);
      StripNonSpace(head);
      StripNonSpace(tail);
      assert remaining == head + tail;
      NonSpaceConcat(head, tail);
      NonSpaceConcat(Strip(head), Flatten(rest));
      assert Strip(head) != "" by { assert !IsSpace(head[0]); }
      FlattenCons(Strip(head), rest);
    } else {
      FlattenNonEmpty(remaining);
    }
  }

  lemma FlattenNonEmpty(piece: string)
    ensures Flatten(NonEmpty(piece)) == piece
  {
    assert piece != "" ==> [piece][1..] == [];
  }

  /** Each cut consumes more than a third of the limit, which bounds the number of pieces. */
  lemma {:induction false} SplitPiecesCount(remaining: string, limit: nat)
    requires limit >= 1 && Stripped(remaining)
    ensures |SplitPieces(remaining, limit)| * limit <= 3 * |remaining| + limit
    decreases |remaining|
  {
    if |remaining| > limit {
      var cut := CutPoint(remaining, limit);
      var rest := Strip(remaining[cut..]);
      SplitPiecesCount(rest, limit);
      CountStep(|SplitPieces(remaining, limit)|, |SplitPieces(rest, limit)|, limit, cut, |remaining|, |rest|);
    } else {
      assert |SplitPieces(remaining, limit)| <= 1;
    }
  }

  lemma CountStep(m: nat, n: nat, limit: nat, cut: nat, length: nat, rest: nat)
    requires m <= n + 1 && n * limit <= 3 * rest + limit
    requires rest + cut <= length && 3 * cut >= limit
    ensures m * limit <= 3 * length + limit
  {
    assert m * limit <= n * limit + limit by { GrowsByOne(m, n, limit); }
  }

  lemma GrowsByOne(m: nat, n: nat, limit: nat)
    requires m <= n + 1
    ensures m * limit <= n * limit + limit
  {
    if m == n + 1 {
      assert m * limit == n * limit + limit;
    } else {
      assert m * limit <= n * limit;
    }
  }

  /** The search of the nine separators, one after the other, for the last late boundary. */
  method FindBoundary(window: string, from: nat) returns (boundary: int)
    ensures boundary == LastSeparator(window, from, |window|)
  {
    boundary := -1;
    for s := 0 to |SEPARATORS|
      invariant boundary == -1 || (from <= boundary < |window| && IsSeparator(window[boundary]))
      invariant forall k, t | 0 <= t < s && from <= k < |window| && boundary < k :: window[k] != SEPARATORS[t]
    {
      var candidate := RFind(window, SEPARATORS[s], from, |window|);
      if candidate > boundary {
        boundary := candidate;
      }
    }
    forall k | from <= k < |window| && boundary < k
      ensures !IsSeparator(window[k])
    {
      assert forall t | 0 <= t < |SEPARATORS| :: window[k] != SEPARATORS[t];
      assert window[k] !in SEPARATORS;
    }
  }

  /** One turn of the cutting loop: what it appends and what it leaves make up the same pieces. */
  lemma CutStep(before: seq<string>, remaining: string, limit: nat)
    requires 1 <= limit < |remaining|
    ensures var cut := CutPoint(remaining, limit);
      (before + NonEmpty(Strip(remaining[..cut]))) + SplitPieces(Strip(remaining[cut..]), limit)
      == before + SplitPieces(remaining, limit)
  {
    hide CutPoint, Strip, NonEmpty;
    var cut := CutPoint(remaining, limit);
    var piece, rest := NonEmpty(Strip(remaining[..cut])), SplitPieces(Strip(remaining[cut..]), limit);
    assert SplitPieces(remaining, limit) == piece + rest;
    assert (before + piece) + rest == before + (piece + rest);
  }

  lemma SplitPiecesDone(remaining: string, limit: nat)
    requires |remaining| <= limit && limit >= 1
    ensures SplitPieces(remaining, limit) == NonEmpty(remaining)
  {
  }

  method SeparatorFallback(text: string, limit: nat) returns (pieces: seq<string>)
    requires limit >= 1
    ensures pieces == SplitPieces(Strip(text), limit)
  {
    hide SplitPieces, Strip;
    var remaining := Strip(text);
    ghost var goal := SplitPieces(remaining, limit);
    pieces := [];
    while |remaining| > limit
      invariant pieces + SplitPieces(remaining, limit) == goal
      decreases |remaining|
    {
      var boundary := FindBoundary(remaining[..limit + 1], MinimumBoundary(limit));
      var cut := if boundary >= MinimumBoundary(limit) then boundary + 1 else limit;
      CutStep(pieces, remaining, limit);
      var piece := Strip(remaining[..cut]);
      ghost var before := pieces;
      if piece != "" {
        pieces := pieces + [piece];
      }
      assert pieces == before + NonEmpty(piece);
      remaining := Strip(remaining[cut..]);
    }
    SplitPiecesDone(remaining, limit);
    if remaining != "" {
      pieces := pieces + [remaining];
    }
  }

  function PieceLimit(cfg: Config): (limit: nat)
    ensures limit >= 1
  {
    var room := cfg.max - cfg.overlap - (if cfg.overlap > 0 then 2 else 0);
    if room >= 1 then room else 1
  }

  function Parts(cfg: Config, text: string): seq<string> {
    if |text| <= PieceLimit(cfg) then [text] else SplitPieces(Strip(text), PieceLimit(cfg))
  }

  method HardSplit(cfg: Config, text: string) returns (parts: seq<string>)
    ensures parts == Parts(cfg, text)
  {
    var limit := PieceLimit(cfg);
    if |text| <= limit {
      return [text];
    }
    parts := SeparatorFallback(text, limit);
  }

  // ---------------------------------------------------------------- packing parts into chunks

  function Candidate(current: string, part: string): string {
    if current == "" then part else Strip(current + "\n\n" + part)
  }

  predicate ShouldFlush(cfg: Config, current: string, part: string) {
    var length := |Candidate(current, part)|;
    length > cfg.max || (length > cfg.target && |current| >= cfg.min)
  }

  function LastChars(s: string, n: nat): (r: string)
    ensures |r| <= n && |r| <= |s| && r == s[|s| - |r|..]
    ensures n > 0 && s != "" ==> r != ""
  {
    if |s| <= n then s else s[|s| - n..]
  }

  /** What the chunk that follows `chunk` repeats of it. */
  function Overlap(cfg: Config, chunk: string): (r: string)
    ensures |r| <= cfg.overlap && |r| <= |chunk| && r == chunk[|chunk| - |r|..]
    ensures Stripped(chunk) ==> Stripped(r)
    ensures cfg.overlap > 0 && chunk != "" && Stripped(chunk) ==> r != ""
  {
    if cfg.overlap == 0 then ""
    else
      OverlapSuffix(chunk, cfg.overlap);
      LStrip(LastChars(chunk, cfg.overlap))
  }

  lemma OverlapSuffix(chunk: string, n: nat)
    requires n > 0
    ensures var r := LStrip(LastChars(chunk, n));
      && |r| <= n && |r| <= |chunk| && r == chunk[|chunk| - |r|..]
      && (Stripped(chunk) ==> Stripped(r))
      && (Stripped(chunk) && chunk != "" ==> r != "")
  {
    hide IsSpace, LastChars, LStrip;
    var tail := LastChars(chunk, n);
    var r := LStrip(tail);
    LStripSuffix(tail);
    SuffixOfSuffix(chunk, |tail|, |r|);
    if chunk != "" {
      assert tail[|tail| - 1] == chunk[|chunk| - 1];
      if r == "" { assert IsSpace(tail[..|tail|][|tail| - 1]); }
    }
  }

  lemma SuffixOfSuffix(s: string, m: nat, n: nat)
    requires n <= m <= |s|
    ensures s[|s| - m..][m - n..] == s[|s| - n..]
  {
  }

  function StartNext(cfg: Config, chunk: string, part: string): string {
    Strip(Overlap(cfg, chunk) + "\n\n" + part)
  }

  /** The chunks still to be emitted, given the chunk being built and the parts to come. */
  function Pack(cfg: Config, current: string, parts: seq<string>): seq<string>
    decreases |parts|
  {
    if parts == [] then NonEmpty(current)
    else if current != "" && ShouldFlush(cfg, current, parts[0]) then
      [current] + Pack(cfg, StartNext(cfg, current, parts[0]), parts[1..])
    else
      Pack(cfg, Candidate(current, parts[0]), parts[1..])
  }

  function AllParts(cfg: Config, paragraphs: seq<string>): seq<string> {
    if paragraphs == [] then [] else Parts(cfg, paragraphs[0]) + AllParts(cfg, paragraphs[1..])
  }

  /** The paragraphs of a section, or the stripped (blank) body when there are none. */
  function BodyParagraphs(body: string): seq<string> {
    if Paragraphs(body) == [] then [Strip(body)] else Paragraphs(body)
  }

  function ChunksOf(cfg: Config, body: string): seq<string> {
    Pack(cfg, "", AllParts(cfg, BodyParagraphs(body)))
  }

  /** One turn of the packing loop. */
  lemma PackStep(cfg: Config, before: seq<string>, current: string, part: string, rest: seq<string>)
    ensures before + Pack(cfg, current, [part] + rest)
         == if current != "" && ShouldFlush(cfg, current, part)
            then (before + [current]) + Pack(cfg, StartNext(cfg, current, part), rest)
            else before + Pack(cfg, Candidate(current, part), rest)
  {
    assert ([part] + rest)[1..] == rest;
  }

  method SplitBody(cfg: Config, body: string) returns (chunks: seq<string>)
    ensures chunks == ChunksOf(cfg, body)
  {
    hide Pack, AllParts, Parts, Candidate, StartNext, Paragraphs;
    var paragraphs := Paragraphs(body);
    if paragraphs == [] {
      paragraphs := [Strip(body)];
    }
    chunks := [];
    var current := "";
    ghost var goal := ChunksOf(cfg, body);
    assert paragraphs[0..] == paragraphs;
    assert goal == [] + Pack(cfg, "", AllParts(cfg, paragraphs[0..]));
    for p := 0 to |paragraphs|
      invariant chunks + Pack(cfg, current, AllParts(cfg, paragraphs[p..])) == goal
    {
      var parts := HardSplit(cfg, paragraphs[p]);
      ghost var later := AllParts(cfg, paragraphs[p + 1..]);
      AllPartsStep(cfg, paragraphs, p);
      for q := 0 to |parts|
        invariant chunks + Pack(cfg, current, parts[q..] + later) == goal
      {
        var part := parts[q];
        PackStep(cfg, chunks, current, part, parts[q + 1..] + later);
        assert parts[q..] + later == [part] + (parts[q + 1..] + later);
        var candidate := Candidate(current, part);
        var flush := |candidate| > cfg.max || (|candidate| > cfg.target && |current| >= cfg.min);
        if current != "" && flush {
          chunks := chunks + [current];
          current := StartNext(cfg, current, part);
        } else {
          current := candidate;
        }
      }
      assert parts[|parts|..] + later == later;
    }
    assert paragraphs[|paragraphs|..] == [];
    PackDone(cfg, current);
    if current != "" {
      chunks := chunks + [current];
    }
  }

  lemma PackDone(cfg: Config, current: string)
    ensures Pack(cfg, current, AllParts(cfg, [])) == NonEmpty(current)
  {
  }

  lemma AllPartsStep(cfg: Config, paragraphs: seq<string>, p: nat)
    requires p < |paragraphs|
    ensures AllParts(cfg, paragraphs[p..])
         == Parts(cfg, paragraphs[p])[0..] + AllParts(cfg, paragraphs[p + 1..])
  {
    assert paragraphs[p..][1..] == paragraphs[p + 1..];
  }

  // ---------------------------------------------------------------- nothing is lost

  function Drop(s: string, n: nat): string {
    if n <= |s| then s[n..] else ""
  }

  /** Each chunk after the first starts with the overlap of the chunk before it. */
  predicate Continues(cfg: Config, chunks: seq<string>) {
    forall i | 0 < i < |chunks| :: Overlap(cfg, chunks[i - 1]) <= chunks[i]
  }

  /** The text the chunks add to `previous`: what each holds after the overlap it repeats. */
  function NewText(cfg: Config, previous: string, chunks: seq<string>): string
    decreases |chunks|
  {
    if chunks == [] then ""
    else Drop(chunks[0], |Overlap(cfg, previous)|) + NewText(cfg, chunks[0], chunks[1..])
  }

  /** Reassembles the text of a section from its chunks. */
  function Restore(cfg: Config, chunks: seq<string>): string {
    if chunks == [] then "" else chunks[0] + NewText(cfg, chunks[0], chunks[1..])
  }

  /** `next` is `before` followed by text whose visible characters are those of `part`. */
  predicate Extends(before: string, next: string, part: string) {
    before <= next && NonSpace(Drop(next, |before|)) == NonSpace(part)
  }

  lemma JoinPart(before: string, part: string)
    requires Stripped(before) && Stripped(part) && part != ""
    ensures var next := Strip(before + "\n\n" + part);
      && next == (if before == "" then part else before + "\n\n" + part)
      && Stripped(next) && Extends(before, next, part)
  {
    hide IsSpace, Strip, Extends;
    if before == "" {
      BreaksAreBlank();
      StripPadded("\n\n", part, "");
      assert "\n\n" + part + "" == before + "\n\n" + part;
      ExtendsNothing(part);
    } else {
      var next := before + "\n\n" + part;
      assert next[0] == before[0] && next[|next| - 1] == part[|part| - 1];
      StripFixed(next);
      ExtendsByPart(before, part);
    }
  }

  lemma BreaksAreBlank()
    ensures Blank("\n\n") && NonSpace("\n\n") == ""
  {
    NonSpaceBlank("\n\n");
  }

  lemma ExtendsNothing(part: string)
    ensures Extends("", part, part)
  {
  }

  lemma ExtendsByPart(before: string, part: string)
    ensures Extends(before, before + "\n\n" + part, part)
  {
    hide NonSpace;
    assert Drop(before + "\n\n" + part, |before|) == "\n\n" + part;
    NonSpaceConcat("\n\n", part);
    BreaksAreBlank();
  }

  lemma StartNextExtends(cfg: Config, chunk: string, part: string)
    requires chunk != "" && Stripped(chunk) && part != "" && Stripped(part)
    ensures StartNext(cfg, chunk, part) != "" && Stripped(StartNext(cfg, chunk, part))
    ensures Extends(Overlap(cfg, chunk), StartNext(cfg, chunk, part), part)
    ensures |StartNext(cfg, chunk, part)| == (if cfg.overlap == 0 then 0 else |Overlap(cfg, chunk)| + 2) + |part|
  {
    JoinPart(Overlap(cfg, chunk), part);
  }

  lemma CandidateExtends(current: string, part: string)
    requires current != "" && Stripped(current) && part != "" && Stripped(part)
    ensures Stripped(Candidate(current, part)) && |Candidate(current, part)| == |current| + 2 + |part|
    ensures Extends(current, Candidate(current, part), part)
  {
    JoinPart(current, part);
  }

  /** The chunks packed from `current` on start with it and add the visible text of `parts`. */
  ghost predicate PacksAll(cfg: Config, current: string, parts: seq<string>, chunks: seq<string>) {
    && chunks != [] && current <= chunks[0]
    && Tight(chunks) && Continues(cfg, chunks)
    && NonSpace(Drop(chunks[0], |current|) + NewText(cfg, chunks[0], chunks[1..])) == NonSpace(Flatten(parts))
  }

  lemma DropTwice(before: string, next: string, chunk: string)
    requires before <= next <= chunk
    ensures Drop(chunk, |before|) == Drop(next, |before|) + Drop(chunk, |next|)
  {
  }

  lemma PacksGrown(cfg: Config, current: string, next: string, part: string, parts: seq<string>, chunks: seq<string>)
    requires Extends(current, next, part) && PacksAll(cfg, next, parts, chunks)
    ensures PacksAll(cfg, current, [part] + parts, chunks)
  {
    hide NewText, NonSpace, Flatten, Continues;
    DropTwice(current, next, chunks[0]);
    var added, more := Drop(next, |current|), Drop(chunks[0], |next|);
    var later := NewText(cfg, chunks[0], chunks[1..]);
    assert Drop(chunks[0], |current|) + later == added + (more + later);
    NonSpaceConcat(added, more + later);
    FlattenCons(part, parts);
    NonSpaceConcat(part, Flatten(parts));
  }

  lemma PacksFlushed(cfg: Config, current: string, next: string, part: string, parts: seq<string>, chunks: seq<string>)
    requires current != "" && Stripped(current)
    requires Extends(Overlap(cfg, current), next, part) && PacksAll(cfg, next, parts, chunks)
    ensures PacksAll(cfg, current, [part] + parts, [current] + chunks)
  {
    hide NonSpace, Flatten, Overlap, Extends;
    PacksGrown(cfg, Overlap(cfg, current), next, part, parts, chunks);
    var all := [current] + chunks;
    assert all[1..] == chunks;
    assert Drop(current, |current|) == "";
    assert NewText(cfg, current, chunks) ==
      Drop(chunks[0], |Overlap(cfg, current)|) + NewText(cfg, chunks[0], chunks[1..]);
    assert "" + NewText(cfg, current, chunks) == NewText(cfg, current, chunks);
  }

  lemma PacksLast(cfg: Config, current: string)
    requires current != "" && Stripped(current)
    ensures PacksAll(cfg, current, [], [current])
  {
    assert NewText(cfg, current, []) == "" && Drop(current, |current|) == "";
  }

  lemma {:induction false} PackLossless(cfg: Config, current: string, parts: seq<string>)
    requires current != "" && Stripped(current) && Tight(parts)
    ensures PacksAll(cfg, current, parts, Pack(cfg, current, parts))
    decreases |parts|
  {
    hide Strip, Overlap, Extends, NonSpace, Flatten, Candidate, StartNext, ShouldFlush, PacksAll;
    if parts == [] {
      PacksLast(cfg, current);
    } else {
      var part, rest := parts[0], parts[1..];
      assert parts == [part] + rest;
      if ShouldFlush(cfg, current, part) {
        var next := StartNext(cfg, current, part);
        StartNextExtends(cfg, current, part);
        PackLossless(cfg, next, rest);
        PacksFlushed(cfg, current, next, part, rest, Pack(cfg, next, rest));
      } else {
        var next := Candidate(current, part);
        CandidateExtends(current, part);
        PackLossless(cfg, next, rest);
        PacksGrown(cfg, current, next, part, rest, Pack(cfg, next, rest));
      }
    }
  }

  lemma {:induction false} AllPartsLossless(cfg: Config, paragraphs: seq<string>)
    requires Tight(paragraphs)
    ensures Tight(AllParts(cfg, paragraphs))
    ensures paragraphs != [] ==> AllParts(cfg, paragraphs) != []
    ensures NonSpace(Flatten(AllParts(cfg, paragraphs))) == NonSpace(Flatten(paragraphs))
  {
    hide NonSpace, Flatten, Parts, Stripped;
    if paragraphs != [] {
      var head, tail := paragraphs[0], paragraphs[1..];
      assert paragraphs == [head] + tail;
      AllPartsLossless(cfg, tail);
      PartsLossless(cfg, head);
      FlattenConcat(Parts(cfg, head), AllParts(cfg, tail));
      NonSpaceConcat(Flatten(Parts(cfg, head)), Flatten(AllParts(cfg, tail)));
      FlattenCons(head, tail);
      NonSpaceConcat(head, Flatten(tail));
    }
  }

  lemma PartsLossless(cfg: Config, text: string)
    requires text != "" && Stripped(text)
    ensures Tight(Parts(cfg, text)) && Parts(cfg, text) != []
    ensures NonSpace(Flatten(Parts(cfg, text))) == NonSpace(text)
  {
    StripFixed(text);
    if |text| <= PieceLimit(cfg) {
      assert Flatten([text]) == text;
    } else {
      SplitPiecesBounded(text, PieceLimit(cfg));
      SplitPiecesLossless(text, PieceLimit(cfg));
      NonSpaceBlank(text);
      assert SplitPieces(text, PieceLimit(cfg)) != [];
    }
  }

  lemma PackFromPart(cfg: Config, part: string, rest: seq<string>)
    ensures Pack(cfg, "", [part] + rest) == Pack(cfg, part, rest)
  {
    assert ([part] + rest)[1..] == rest;
  }

  lemma BlankBodyChunks(cfg: Config, body: string)
    requires Paragraphs(body) == []
    ensures ChunksOf(cfg, body) == [] && NonSpace(body) == NonSpace("") == ""
  {
    ParagraphsNonSpace(body);
    NonSpaceBlank(body);
    StripNonSpace(body);
    assert AllParts(cfg, [""]) == [""];
    PackFromPart(cfg, "", []);
    assert Pack(cfg, "", []) == [];
  }

  lemma PacksWhole(cfg: Config, first: string, rest: seq<string>, chunks: seq<string>)
    requires PacksAll(cfg, first, rest, chunks)
    ensures NonSpace(Restore(cfg, chunks)) == NonSpace(Flatten([first] + rest))
  {
    hide NewText, NonSpace, Flatten, Continues;
    var later := NewText(cfg, chunks[0], chunks[1..]);
    assert chunks[0] + later == first + (Drop(chunks[0], |first|) + later);
    NonSpaceConcat(first, Drop(chunks[0], |first|) + later);
    FlattenCons(first, rest);
    NonSpaceConcat(first, Flatten(rest));
  }

  /**
   Chunking a section is lossless: no chunk is blank, each repeats a suffix of the chunk before
   it, and dropping what is repeated gives the section back, whitespace aside.
   */
  lemma SectionLossless(cfg: Config, body: string)
    ensures Tight(ChunksOf(cfg, body))
    ensures Continues(cfg, ChunksOf(cfg, body))
    ensures NonSpace(Restore(cfg, ChunksOf(cfg, body))) == NonSpace(body)
  {
    hide Pack, Paragraphs, AllParts, NonSpace, NewText;
    var paragraphs := Paragraphs(body);
    if paragraphs == [] {
      BlankBodyChunks(cfg, body);
    } else {
      ParagraphsTight(body);
      ParagraphsNonSpace(body);
      AllPartsLossless(cfg, paragraphs);
      var parts := AllParts(cfg, paragraphs);
      assert parts == [parts[0]] + parts[1..];
      PackFromPart(cfg, parts[0], parts[1..]);
      PackLossless(cfg, parts[0], parts[1..]);
      PacksWhole(cfg, parts[0], parts[1..], ChunksOf(cfg, body));
    }
  }

  // ---------------------------------------------------------------- lengths

  function SeparatorSize(cfg: Config): nat {
    if cfg.overlap > 0 then 2 else 0
  }

  lemma {:induction false} AllPartsBounded(cfg: Config, paragraphs: seq<string>, bound: nat)
    requires Tight(paragraphs)
    requires bound == PieceLimit(cfg) + 1 || (bound == PieceLimit(cfg) && NoLongerThan(paragraphs, bound))
    ensures NoLongerThan(AllParts(cfg, paragraphs), bound)
  {
    if paragraphs != [] {
      var head, tail := paragraphs[0], paragraphs[1..];
      AllPartsBounded(cfg, tail, bound);
      StripFixed(head);
      SplitPiecesBounded(head, PieceLimit(cfg));
    }
  }

  lemma {:induction false} PackBounded(cfg: Config, current: string, parts: seq<string>, part: nat, bound: nat)
    requires Stripped(current) && Tight(parts)
    requires |current| <= bound && NoLongerThan(parts, part)
    requires cfg.max <= bound && part <= bound && cfg.overlap + SeparatorSize(cfg) + part <= bound
    ensures NoLongerThan(Pack(cfg, current, parts), bound)
    decreases |parts|
  {
    hide Strip, StartNext, Overlap, Extends, Stripped;
    if parts != [] {
      var next, rest := parts[0], parts[1..];
      if current == "" {
        PackBounded(cfg, next, rest, part, bound);
      } else if ShouldFlush(cfg, current, next) {
        StartNextExtends(cfg, current, next);
        PackBounded(cfg, StartNext(cfg, current, next), rest, part, bound);
      } else {
        CandidateExtends(current, next);
        PackBounded(cfg, Candidate(current, next), rest, part, bound);
      }
    }
  }

  /** The longest a chunk can get: an overlap, a separator and a part with its separator. */
  function WorstLength(cfg: Config): nat {
    var flushed := cfg.overlap + SeparatorSize(cfg) + PieceLimit(cfg) + 1;
    if flushed >= cfg.max then flushed else cfg.max
  }

  /**
   Every chunk is at most one character over `max`, unless an overlap leaves less than three
   characters of it, when it is at most `overlap + 4` long. When every paragraph fits a part,
   the slack is one less.
   */
  lemma ChunkLength(cfg: Config, body: string)
    ensures NoLongerThan(ChunksOf(cfg, body), WorstLength(cfg))
    ensures WorstLength(cfg) ==
      if cfg.overlap == 0 || cfg.max - cfg.overlap >= 3 then cfg.max + 1 else cfg.overlap + 4
    ensures NoLongerThan(Paragraphs(body), PieceLimit(cfg)) ==>
      NoLongerThan(ChunksOf(cfg, body), WorstLength(cfg) - 1)
  {
    hide Pack, Paragraphs, AllParts;
    var paragraphs, limit := Paragraphs(body), PieceLimit(cfg);
    if paragraphs == [] {
      BlankBodyChunks(cfg, body);
    } else {
      ParagraphsTight(body);
      AllPartsLossless(cfg, paragraphs);
      AllPartsBounded(cfg, paragraphs, limit + 1);
      PackBounded(cfg, "", AllParts(cfg, paragraphs), limit + 1, WorstLength(cfg));
      if NoLongerThan(paragraphs, limit) {
        AllPartsBounded(cfg, paragraphs, limit);
        PackBounded(cfg, "", AllParts(cfg, paragraphs), limit, WorstLength(cfg) - 1);
      }
    }
  }

  // ---------------------------------------------------------------- when the limit is exceeded

  /** A word of `n` characters that ends in a full stop, which the splitter never cuts. */
  function Word(n: nat): (w: string)
    requires n >= 1
    ensures |w| == n && NoSpaces(w) && Stripped(w) && IsSeparator(w[n - 1])
  {
    seq(n, i requires 0 <= i < n => if i == n - 1 then '\U{3002}' else 'x')
  }

  /** A word one character over the limit is still one part: it is cut after its full stop. */
  lemma WordIsOnePart(cfg: Config, n: nat)
    requires 1 <= n <= PieceLimit(cfg) + 1
    ensures Parts(cfg, Word(n)) == [Word(n)]
  {
    hide Word;
    var w, limit := Word(n), PieceLimit(cfg);
    if n > limit {
      StripFixed(w);
      assert w[..limit + 1] == w;
      assert LastSeparator(w, MinimumBoundary(limit), limit + 1) == limit;
      assert CutPoint(w, limit) == limit + 1;
      assert w[limit + 1..] == "";
      SplitPiecesDone("", limit);
    }
  }

  function Words(sizes: seq<nat>): (words: seq<string>)
    requires forall i | 0 <= i < |sizes| :: sizes[i] >= 1
    ensures |words| == |sizes|
  {
    seq(|sizes|, i requires 0 <= i < |sizes| => Word(sizes[i]))
  }

  lemma {:induction false} WordsAreParts(cfg: Config, words: seq<string>)
    requires forall i | 0 <= i < |words| :: Parts(cfg, words[i]) == [words[i]]
    ensures AllParts(cfg, words) == words
  {
    hide Parts;
    if words != [] {
      WordsAreParts(cfg, words[1..]);
    }
  }

  /** The length of `current` once all the words have been added to it. */
  lemma WordsCons(sizes: seq<nat>, last: nat)
    requires last >= 1 && forall i | 0 <= i < |sizes| :: sizes[i] >= 1
    ensures Words(sizes) + [Word(last)] ==
      if sizes == [] then [Word(last)] + [] else [Word(sizes[0])] + (Words(sizes[1..]) + [Word(last)])
  {
    hide Word;
  }

  function Grown(current: nat, sizes: seq<nat>): nat
    decreases |sizes|
  {
    if sizes == [] then current else Grown(current + 2 + sizes[0], sizes[1..])
  }

  lemma {:induction false} GrownIncreases(current: nat, sizes: seq<nat>)
    ensures Grown(current, sizes) >= current
    decreases |sizes|
  {
    if sizes != [] {
      GrownIncreases(current + 2 + sizes[0], sizes[1..]);
    }
  }

  ghost predicate SomeOver(chunks: seq<string>, bound: int) {
    exists i | 0 <= i < |chunks| :: |chunks[i]| > bound
  }

  lemma SomeOverLater(first: string, chunks: seq<string>, bound: int)
    requires SomeOver(chunks, bound)
    ensures SomeOver([first] + chunks, bound)
  {
    var i :| 0 <= i < |chunks| && |chunks[i]| > bound;
    assert ([first] + chunks)[i + 1] == chunks[i];
  }

  /**
   As long as a chunk is no longer than the overlap, flushing it repeats all of it. So the
   chunk grows as if it were never flushed, until the last word takes it over the limit.
   */
  lemma {:induction false} Overflows(cfg: Config, current: string, sizes: seq<nat>, last: nat, bound: nat)
    requires cfg.overlap > 0 && current != "" && Stripped(current) && last >= 1
    requires forall i | 0 <= i < |sizes| :: sizes[i] >= 1
    requires Grown(|current|, sizes) <= cfg.overlap
    requires Grown(|current|, sizes) + 2 + last > bound >= cfg.max
    ensures SomeOver(Pack(cfg, current, Words(sizes) + [Word(last)]), bound)
    decreases |sizes|
  {
    hide Pack, Candidate, Word, Words, Stripped, SomeOver;
    GrownIncreases(|current|, sizes);
    WordsCons(sizes, last);
    if sizes == [] {
      OverflowsLast(cfg, current, last, bound);
    } else {
      CandidateGrows(cfg, current, sizes[0]);
      Overflows(cfg, Candidate(current, Word(sizes[0])), sizes[1..], last, bound);
      OverflowStep(cfg, current, sizes[0], Words(sizes[1..]) + [Word(last)], bound);
    }
  }

  lemma OverflowsLast(cfg: Config, current: string, last: nat, bound: nat)
    requires current != "" && Stripped(current) && |current| <= cfg.overlap && last >= 1
    requires |current| + 2 + last > bound
    ensures SomeOver(Pack(cfg, current, [Word(last)] + []), bound)
  {
    hide Pack, Candidate, Word, Stripped, SomeOver;
    var next := Candidate(current, Word(last));
    CandidateGrows(cfg, current, last);
    PackOne(cfg, next);
    OneOver(next, bound);
    OverflowStep(cfg, current, last, [], bound);
  }

  lemma CandidateGrows(cfg: Config, current: string, n: nat)
    requires current != "" && Stripped(current) && n >= 1
    ensures var next := Candidate(current, Word(n));
      next != "" && Stripped(next) && |next| == |current| + 2 + n
  {
    hide Candidate, Word, Extends, Stripped;
    CandidateExtends(current, Word(n));
  }

  lemma OneOver(chunk: string, bound: int)
    requires |chunk| > bound
    ensures SomeOver([chunk], bound)
  {
    assert |[chunk][0]| > bound;
  }

  /** A chunk within the overlap grows by the next word, whether or not it is flushed. */
  lemma OverflowStep(cfg: Config, current: string, n: nat, rest: seq<string>, bound: nat)
    requires current != "" && Stripped(current) && |current| <= cfg.overlap && n >= 1
    requires SomeOver(Pack(cfg, Candidate(current, Word(n)), rest), bound)
    ensures SomeOver(Pack(cfg, current, [Word(n)] + rest), bound)
  {
    hide Pack, Candidate, ShouldFlush, Word, SomeOver, Stripped, Overlap;
    OverlapOfShort(cfg, current);
    PackEither(cfg, current, Word(n), rest);
    var later := Pack(cfg, Candidate(current, Word(n)), rest);
    if ShouldFlush(cfg, current, Word(n)) {
      SomeOverLater(current, later, bound);
    } else {
      assert [] + later == later;
    }
  }

  lemma OverlapOfShort(cfg: Config, current: string)
    requires current != "" && Stripped(current) && |current| <= cfg.overlap
    ensures Overlap(cfg, current) == current
  {
  }

  lemma PackEither(cfg: Config, current: string, part: string, rest: seq<string>)
    requires current != "" && Overlap(cfg, current) == current
    ensures Pack(cfg, current, [part] + rest)
      == (if ShouldFlush(cfg, current, part) then [current] else []) + Pack(cfg, Candidate(current, part), rest)
  {
    hide Pack, Strip, Overlap;
    assert StartNext(cfg, current, part) == Candidate(current, part);
    PackStep(cfg, [], current, part, rest);
    assert [] + Pack(cfg, current, [part] + rest) == Pack(cfg, current, [part] + rest);
    assert [] + [current] == [current];
  }

  lemma PackOne(cfg: Config, current: string)
    requires current != ""
    ensures Pack(cfg, current, []) == [current]
  {
  }

  lemma WordsChunks(cfg: Config, sizes: seq<nat>)
    requires sizes != [] && forall i | 0 <= i < |sizes| :: 1 <= sizes[i] <= PieceLimit(cfg) + 1
    ensures ChunksOf(cfg, Join("\n\n", Words(sizes))) == Pack(cfg, "", Words(sizes))
  {
    hide Pack, Word, Parts, Join, Paragraphs;
    var words := Words(sizes);
    ParagraphsOfWords(words);
    forall i | 0 <= i < |words| ensures Parts(cfg, words[i]) == [words[i]] {
      WordIsOnePart(cfg, sizes[i]);
    }
    WordsAreParts(cfg, words);
  }

  predicate AreSizes(sizes: seq<nat>) {
    sizes != [] && forall i | 0 <= i < |sizes| :: sizes[i] >= 1
  }

  /** Words with blank lines between them. */
  ghost predicate IsWordText(body: string) {
    exists sizes: seq<nat> :: AreSizes(sizes) && body == Join("\n\n", Words(sizes))
  }

  /** A run of words that grows a chunk up to the overlap, then one that takes it over the bound. */
  lemma WordsOverflow(cfg: Config, first: nat, sizes: seq<nat>, last: nat, bound: nat) returns (body: string)
    requires cfg.overlap > 0
    requires forall n | n in [first] + sizes + [last] :: 1 <= n <= PieceLimit(cfg) + 1
    requires Grown(first, sizes) <= cfg.overlap && Grown(first, sizes) + 2 + last > bound >= cfg.max
    ensures IsWordText(body) && SomeOver(ChunksOf(cfg, body), bound)
  {
    hide Pack, Word, Words, Join, Grown, ChunksOf;
    var all := [first] + sizes + [last];
    forall i | 0 <= i < |all| ensures 1 <= all[i] <= PieceLimit(cfg) + 1 {
      assert all[i] in all;
    }
    assert forall i | 0 <= i < |sizes| :: sizes[i] == all[i + 1];
    assert first == all[0] && last == all[|all| - 1];
    body := Join("\n\n", Words(all));
    WordsChunks(cfg, all);
    WordsOf(first, sizes, last);
    PackFromPart(cfg, Word(first), Words(sizes) + [Word(last)]);
    Overflows(cfg, Word(first), sizes, last, bound);
  }

  lemma WordsOf(first: nat, sizes: seq<nat>, last: nat)
    requires first >= 1 && last >= 1 && forall i | 0 <= i < |sizes| :: sizes[i] >= 1
    ensures forall i | 0 <= i < |[first] + sizes + [last]| :: ([first] + sizes + [last])[i] >= 1
    ensures Words([first] + sizes + [last]) == [Word(first)] + (Words(sizes) + [Word(last)])
  {
    hide Word;
  }

  function Ones(n: nat): (ones: seq<nat>)
    ensures forall k | k in ones :: k == 1
  {
    if n == 0 then [] else [1] + Ones(n - 1)
  }

  lemma GrownByOnes(current: nat, n: nat)
    ensures Grown(current, Ones(n)) == current + 3 * n
    decreases n
  {
    if n > 0 {
      assert Ones(n)[1..] == Ones(n - 1);
      GrownByOnes(current + 3, n - 1);
    }
  }

  lemma Exceeds(cfg: Config, bound: nat) returns (body: string)
    requires cfg.overlap > 0 && bound >= cfg.max
    requires bound <= cfg.overlap + PieceLimit(cfg) + 2
    requires cfg.overlap == 3 && PieceLimit(cfg) == 1 ==> bound <= 5
    ensures IsWordText(body) && SomeOver(ChunksOf(cfg, body), bound)
  {
    hide Pack, Word, Words, Join, Grown, ChunksOf, SomeOver, IsWordText;
    var limit, n := PieceLimit(cfg), cfg.overlap / 3;
    if cfg.overlap % 3 == 1 {
      GrownByOnes(1, n);
      body := WordsOverflow(cfg, 1, Ones(n), limit + 1, bound);
    } else if cfg.overlap % 3 == 2 {
      GrownByOnes(2, n);
      body := WordsOverflow(cfg, 2, Ones(n), limit + 1, bound);
    } else if limit >= 2 {
      GrownByOnes(3, n - 1);
      body := WordsOverflow(cfg, 3, Ones(n - 1), limit + 1, bound);
    } else if cfg.overlap >= 6 {
      GrownByOnes(6, n - 2);
      GrownCons(2, 2, Ones(n - 2));
      body := WordsOverflow(cfg, 2, [2] + Ones(n - 2), 2, bound);
    } else {
      GrownByOnes(2, 0);
      body := WordsOverflow(cfg, 2, Ones(0), 2, bound);
    }
  }

  lemma GrownCons(current: nat, n: nat, sizes: seq<nat>)
    ensures Grown(current, [n] + sizes) == Grown(current + 2 + n, sizes)
  {
    assert ([n] + sizes)[1..] == sizes;
  }

  lemma OneLongWord(cfg: Config) returns (body: string)
    requires cfg.overlap == 0
    ensures IsWordText(body) && SomeOver(ChunksOf(cfg, body), cfg.max)
  {
    hide Word, Join, Pack, ChunksOf;
    var sizes := [cfg.max + 1];
    body := Join("\n\n", Words(sizes));
    WordsChunks(cfg, sizes);
    assert Words(sizes) == [Word(cfg.max + 1)] + [];
    PackFromPart(cfg, Word(cfg.max + 1), []);
    PackOne(cfg, Word(cfg.max + 1));
    assert |ChunksOf(cfg, body)[0]| > cfg.max;
  }

  /** The third character from the end is whitespace, or there are less than three. */
  predicate ShortTail(chunk: string) {
    |chunk| >= 3 ==> IsSpace(chunk[|chunk| - 3])
  }

  lemma JoinShortTail(before: string, part: string)
    requires Stripped(before) && Stripped(part) && 1 <= |part| <= 2
    ensures var next := Strip(before + "\n\n" + part);
      ShortTail(next) && Stripped(next) && |next| <= |before| + 2 + |part|
  {
    hide NonSpace;
    JoinPart(before, part);
  }

  lemma {:induction false} PackSix(cfg: Config, current: string, parts: seq<string>)
    requires cfg.overlap == 3 && cfg.max <= 6
    requires Stripped(current) && |current| <= 6 && ShortTail(current)
    requires Tight(parts) && NoLongerThan(parts, 2)
    ensures NoLongerThan(Pack(cfg, current, parts), 6)
    decreases |parts|
  {
    hide Strip, Overlap;
    if parts != [] {
      var part, rest := parts[0], parts[1..];
      if current == "" {
        PackSix(cfg, part, rest);
      } else if ShouldFlush(cfg, current, part) {
        OverlapOfShortTail(cfg, current);
        JoinShortTail(Overlap(cfg, current), part);
        PackSix(cfg, StartNext(cfg, current, part), rest);
      } else {
        JoinShortTail(current, part);
        PackSix(cfg, Candidate(current, part), rest);
      }
    }
  }

  lemma OverlapOfShortTail(cfg: Config, chunk: string)
    requires cfg.overlap == 3 && ShortTail(chunk)
    ensures |Overlap(cfg, chunk)| <= 2
  {
    if |chunk| >= 3 {
      assert IsSpace(LastChars(chunk, 3)[0]);
    }
  }

  lemma BoundedBySix(cfg: Config, body: string)
    requires cfg.overlap == 3 && cfg.max <= 6
    ensures NoLongerThan(ChunksOf(cfg, body), 6)
  {
    hide Pack, AllParts, Paragraphs;
    if Paragraphs(body) == [] {
      BlankBodyChunks(cfg, body);
    } else {
      ParagraphsTight(body);
      AllPartsLossless(cfg, Paragraphs(body));
      AllPartsBounded(cfg, Paragraphs(body), 2);
      PackSix(cfg, "", AllParts(cfg, Paragraphs(body)));
    }
  }

  predicate MaxHolds(cfg: Config) {
    cfg.overlap == 3 && cfg.max == 6
  }

  predicate SlackHolds(cfg: Config) {
    cfg.overlap == 0 || cfg.max - cfg.overlap >= 3 || (cfg.overlap == 3 && cfg.max == 5)
  }

  lemma MaxHoldsFor(cfg: Config, body: string)
    ensures MaxHolds(cfg) ==> NoLongerThan(ChunksOf(cfg, body), cfg.max)
    ensures SlackHolds(cfg) ==> NoLongerThan(ChunksOf(cfg, body), cfg.max + 1)
  {
    hide Pack, AllParts, Paragraphs, ChunksOf;
    if cfg.overlap == 3 && cfg.max <= 6 { BoundedBySix(cfg, body); }
    ChunkLength(cfg, body);
  }

  lemma OverMax(cfg: Config) returns (body: string)
    requires !MaxHolds(cfg)
    ensures IsWordText(body) && !NoLongerThan(ChunksOf(cfg, body), cfg.max)
  {
    hide Pack, AllParts, Paragraphs, ChunksOf, IsWordText;
    if cfg.overlap == 0 { body := OneLongWord(cfg); } else { body := Exceeds(cfg, cfg.max); }
  }

  lemma OverSlack(cfg: Config) returns (body: string)
    requires !SlackHolds(cfg)
    ensures IsWordText(body) && !NoLongerThan(ChunksOf(cfg, body), cfg.max + 1)
  {
    hide Pack, AllParts, Paragraphs, ChunksOf, IsWordText;
    body := Exceeds(cfg, cfg.max + 1);
  }

  /**
   `max_chars` bounds the chunks of every text under one pair of settings only: an overlap of 3
   and a maximum of 6. Under any other, some text has a chunk that is longer.
   */
  lemma MaxCharsHoldsExactly(cfg: Config)
    ensures (forall body: string :: NoLongerThan(ChunksOf(cfg, body), cfg.max))
      <==> cfg.overlap == 3 && cfg.max == 6
  {
    hide ChunksOf;
    if MaxHolds(cfg) {
      forall body: string ensures NoLongerThan(ChunksOf(cfg, body), cfg.max) { MaxHoldsFor(cfg, body); }
    } else {
      var body := OverMax(cfg);
    }
  }

  /** One character of slack is enough exactly when the overlap leaves room for a part. */
  lemma SlackOfOneHoldsExactly(cfg: Config)
    ensures (forall body: string :: NoLongerThan(ChunksOf(cfg, body), cfg.max + 1))
      <==> cfg.overlap == 0 || cfg.max - cfg.overlap >= 3 || (cfg.overlap == 3 && cfg.max == 5)
  {
    hide ChunksOf;
    if SlackHolds(cfg) {
      forall body: string ensures NoLongerThan(ChunksOf(cfg, body), cfg.max + 1) { MaxHoldsFor(cfg, body); }
    } else {
      var body := OverSlack(cfg);
    }
  }

  // ---------------------------------------------------------------- sections

  function DropHashes(s: string): (r: string)
    ensures |r| <= |s|
  {
    if s != "" && s[0] == '#' then DropHashes(s[1..]) else s
  }

  /** The level of a heading: its leading hashes, 1 for one without. */
  function HeadingLevel(stripped: string): (level: nat)
    ensures level >= 1
  {
    if stripped != "" && stripped[0] == '#' then |stripped| - |DropHashes(stripped)| else 1
  }

  function CleanTitle(stripped: string): string {
    Strip(DropHashes(stripped))
  }

  predicate IsHeading(heading: Classifier, line: string) {
    Strip(line) != "" && heading(Strip(line))
  }

  /** The path below a new heading: the part of the old one above its level, then its title. */
  function PushHeading(stack: seq<string>, stripped: string): seq<string> {
    var above := HeadingLevel(stripped) - 1;
    (if above <= |stack| then stack[..above] else stack) + [CleanTitle(stripped)]
  }

  function BodyText(body: seq<string>): string {
    Strip(Join("\n", body))
  }

  /** The sections still to come, given the one being read. */
  function SectionsFrom(
    heading: Classifier, lines: seq<string>, stack: seq<string>, title: Option<string>, body: seq<string>): seq<Section>
    decreases |lines|
  {
    if lines == [] then [Section(stack, title, BodyText(body))]
    else if IsHeading(heading, lines[0]) then
      (if title.Some? || body != [] then [Section(stack, title, BodyText(body))] else [])
      + SectionsFrom(heading, lines[1..], PushHeading(stack, Strip(lines[0])), Some(CleanTitle(Strip(lines[0]))), [])
    else SectionsFrom(heading, lines[1..], stack, title, body + [lines[0]])
  }

  function SectionsOf(heading: Classifier, text: string): seq<Section> {
    SectionsFrom(heading, SplitLines(text), [], None, [])
  }

  /** One turn of the loop over the lines. */
  lemma SectionStep(
    heading: Classifier, before: seq<Section>, line: string, rest: seq<string>,
    stack: seq<string>, title: Option<string>, body: seq<string>)
    ensures before + SectionsFrom(heading, [line] + rest, stack, title, body) ==
      if IsHeading(heading, line) then
        (if title.Some? || body != [] then before + [Section(stack, title, BodyText(body))] else before)
        + SectionsFrom(heading, rest, PushHeading(stack, Strip(line)), Some(CleanTitle(Strip(line))), [])
      else before + SectionsFrom(heading, rest, stack, title, body + [line])
  {
    hide Strip, IsHeading, PushHeading, CleanTitle, BodyText;
    assert ([line] + rest)[1..] == rest;
  }

  method Sections(heading: Classifier, text: string) returns (sections: seq<Section>)
    ensures sections == SectionsOf(heading, text)
  {
    hide SectionsFrom, SplitLines, Strip, PushHeading, CleanTitle, BodyText;
    var lines := SplitLines(text);
    ghost var goal := SectionsOf(heading, text);
    sections := [];
    var stack: seq<string> := [];
    var title: Option<string> := None;
    var body: seq<string> := [];
    assert lines[0..] == lines;
    assert [] + SectionsFrom(heading, lines[0..], stack, title, body) == goal;
    for i := 0 to |lines|
      invariant sections + SectionsFrom(heading, lines[i..], stack, title, body) == goal
    {
      var line := lines[i];
      assert lines[i..] == [line] + lines[i + 1..];
      SectionStep(heading, sections, line, lines[i + 1..], stack, title, body);
      var stripped := Strip(line);
      if stripped != "" && heading(stripped) {
        if title.Some? || body != [] {
          sections := sections + [Section(stack, title, BodyText(body))];
        }
        stack := PushHeading(stack, stripped);
        title, body := Some(CleanTitle(stripped)), [];
      } else {
        body := body + [line];
      }
    }
    assert lines[|lines|..] == [];
    LastSection(heading, stack, title, body);
    sections := sections + [Section(stack, title, BodyText(body))];
  }

  lemma LastSection(heading: Classifier, stack: seq<string>, title: Option<string>, body: seq<string>)
    ensures SectionsFrom(heading, [], stack, title, body) == [Section(stack, title, BodyText(body))]
  {
  }

  /** The text of a section that is chunked: its title on a line of its own, then its body. */
  function SectionText(section: Section): string {
    (if section.title.Some? && section.title.value != "" then section.title.value + "\n" else "") + section.body
  }

  function SectionTexts(sections: seq<Section>): (texts: seq<string>)
    ensures |texts| == |sections|
    ensures forall i | 0 <= i < |sections| :: texts[i] == SectionText(sections[i])
  {
    if sections == [] then [] else [SectionText(sections[0])] + SectionTexts(sections[1..])
  }

  /** The visible characters of the lines, a heading's leading hashes left out. */
  function KeptText(heading: Classifier, lines: seq<string>): string {
    if lines == [] then ""
    else
      NonSpace(if IsHeading(heading, lines[0]) then CleanTitle(Strip(lines[0])) else lines[0])
      + KeptText(heading, lines[1..])
  }

  function TitleText(title: Option<string>): string {
    if title.Some? then title.value else ""
  }

  lemma SectionNonSpace(stack: seq<string>, title: Option<string>, body: seq<string>)
    ensures NonSpace(SectionText(Section(stack, title, BodyText(body))))
         == NonSpace(TitleText(title)) + NonSpace(Flatten(body))
  {
    hide NonSpace;
    StripNonSpace(Join("\n", body));
    JoinNonSpace("\n", body);
    NonSpaceBlank("\n");
    NonSpaceBlank("");
    NonSpaceConcat3(TitleText(title), "\n", BodyText(body));
    NonSpaceConcat("", BodyText(body));
  }

  /** Cutting a text into sections loses whitespace and the hashes of headings only. */
  lemma {:induction false} SectionsLossless(
    heading: Classifier, lines: seq<string>, stack: seq<string>, title: Option<string>, body: seq<string>)
    ensures NonSpace(Flatten(SectionTexts(SectionsFrom(heading, lines, stack, title, body))))
         == NonSpace(TitleText(title)) + NonSpace(Flatten(body)) + KeptText(heading, lines)
    decreases |lines|
  {
    hide NonSpace, Flatten, SectionTexts, SectionText, BodyText, PushHeading, CleanTitle, Strip;
    SectionNonSpace(stack, title, body);
    var section := Section(stack, title, BodyText(body));
    SectionTextsCons(section, []);
    if lines == [] {
      assert SectionsFrom(heading, lines, stack, title, body) == [section] + [];
      assert SectionTexts([]) == [];
      EmptyNonSpace();
    } else {
      var line, rest := lines[0], lines[1..];
      FlattenLast(body, line);
      NonSpaceConcat(Flatten(body), line);
      if IsHeading(heading, line) {
        var clean := CleanTitle(Strip(line));
        var later := SectionsFrom(heading, rest, PushHeading(stack, Strip(line)), Some(clean), []);
        SectionsLossless(heading, rest, PushHeading(stack, Strip(line)), Some(clean), []);
        SectionTextsCons(section, later);
        EmptyNonSpace();
        var told := NonSpace(TitleText(title)) + NonSpace(Flatten(body));
        assert NonSpace(Flatten(SectionTexts(later))) == KeptText(heading, lines);
        if title.Some? || body != [] {
          assert SectionsFrom(heading, lines, stack, title, body) == [section] + later;
        } else {
          assert [] + later == later;
          assert told == "" && "" + KeptText(heading, lines) == KeptText(heading, lines);
        }
      } else {
        SectionsLossless(heading, rest, stack, title, body + [line]);
      }
    }
  }

  lemma EmptyNonSpace()
    ensures NonSpace("") == NonSpace(Flatten<char>([])) == ""
  {
  }

  lemma SectionTextsCons(section: Section, sections: seq<Section>)
    ensures NonSpace(Flatten(SectionTexts([section] + sections)))
         == NonSpace(SectionText(section)) + NonSpace(Flatten(SectionTexts(sections)))
  {
    assert ([section] + sections)[1..] == sections;
    FlattenCons(SectionText(section), SectionTexts(sections));
    NonSpaceConcat(SectionText(section), Flatten(SectionTexts(sections)));
  }

  // ---------------------------------------------------------------- section paths

  function HeadingLines(heading: Classifier, lines: seq<string>): seq<string> {
    if lines == [] then []
    else (if IsHeading(heading, lines[0]) then [Strip(lines[0])] else []) + HeadingLines(heading, lines[1..])
  }

  datatype Titled = Titled(path: seq<string>, title: string)

  /** The paths and titles of the sections that have a title. */
  function TitledSections(sections: seq<Section>): seq<Titled> {
    if sections == [] then []
    else
      (if sections[0].title.Some? then [Titled(sections[0].path, sections[0].title.value)] else [])
      + TitledSections(sections[1..])
  }

  /** The paths a run of headings leads to, from the path `stack`. */
  function Paths(stack: seq<string>, headings: seq<string>): (paths: seq<Titled>)
    ensures |paths| == |headings|
    decreases |headings|
  {
    if headings == [] then []
    else
      var path := PushHeading(stack, headings[0]);
      [Titled(path, CleanTitle(headings[0]))] + Paths(path, headings[1..])
  }

  lemma NoTitledSections()
    ensures TitledSections([]) == []
  {
  }

  lemma TitledCons(section: Section, sections: seq<Section>)
    ensures TitledSections([section] + sections) ==
      (if section.title.Some? then [Titled(section.path, section.title.value)] else []) + TitledSections(sections)
  {
    assert ([section] + sections)[1..] == sections;
  }

  /** Every heading opens exactly one section, and those are all the sections with a title. */
  lemma {:induction false} TitledSectionsAreHeadings(
    heading: Classifier, lines: seq<string>, stack: seq<string>, title: Option<string>, body: seq<string>)
    ensures TitledSections(SectionsFrom(heading, lines, stack, title, body))
         == (if title.Some? then [Titled(stack, title.value)] else []) + Paths(stack, HeadingLines(heading, lines))
    decreases |lines|
  {
    hide BodyText, PushHeading, CleanTitle, Strip, IsHeading, TitledSections;
    var section := Section(stack, title, BodyText(body));
    if lines == [] {
      TitledCons(section, []);
      NoTitledSections();
      assert SectionsFrom(heading, lines, stack, title, body) == [section] + [];
    } else {
      var line, rest := lines[0], lines[1..];
      if IsHeading(heading, line) {
        var path, clean := PushHeading(stack, Strip(line)), CleanTitle(Strip(line));
        var later := SectionsFrom(heading, rest, path, Some(clean), []);
        TitledSectionsAreHeadings(heading, rest, path, Some(clean), []);
        TitledCons(section, later);
        assert HeadingLines(heading, lines) == [Strip(line)] + HeadingLines(heading, rest);
        assert Paths(stack, HeadingLines(heading, lines))
          == [Titled(path, clean)] + Paths(path, HeadingLines(heading, rest)) by {
          assert HeadingLines(heading, lines)[1..] == HeadingLines(heading, rest);
        }
        if title.Some? || body != [] {
          assert SectionsFrom(heading, lines, stack, title, body) == [section] + later;
        } else {
          assert [] + later == later;
        }
      } else {
        TitledSectionsAreHeadings(heading, rest, stack, title, body + [line]);
        assert HeadingLines(heading, lines) == [] + HeadingLines(heading, rest) == HeadingLines(heading, rest);
      }
    }
  }

  lemma PushEnds(stack: seq<string>, stripped: string)
    ensures var path := PushHeading(stack, stripped);
      0 < |path| <= HeadingLevel(stripped) && path[|path| - 1] == CleanTitle(stripped)
  {
    hide CleanTitle, HeadingLevel;
  }

  lemma {:induction false} PathsEndInTitle(stack: seq<string>, headings: seq<string>)
    ensures forall k | 0 <= k < |headings| ::
      var t := Paths(stack, headings)[k];
      0 < |t.path| <= HeadingLevel(headings[k]) && t.path[|t.path| - 1] == t.title == CleanTitle(headings[k])
    decreases |headings|
  {
    hide CleanTitle, HeadingLevel, PushHeading;
    if headings != [] {
      var path := PushHeading(stack, headings[0]);
      PushEnds(stack, headings[0]);
      PathsEndInTitle(path, headings[1..]);
      var first, later := Titled(path, CleanTitle(headings[0])), Paths(path, headings[1..]);
      forall k | 0 <= k < |headings|
        ensures var t := ([first] + later)[k];
          0 < |t.path| <= HeadingLevel(headings[k]) && t.path[|t.path| - 1] == t.title == CleanTitle(headings[k])
      {
        if k > 0 {
          assert headings[k] == headings[1..][k - 1];
          assert ([first] + later)[k] == later[k - 1];
        }
      }
    }
  }

  /** No heading is more than one level below the one before it, the first measured from `depth`. */
  predicate NoLevelSkipped(depth: nat, headings: seq<string>)
    decreases |headings|
  {
    headings == [] ||
    (HeadingLevel(headings[0]) <= depth + 1 && NoLevelSkipped(HeadingLevel(headings[0]), headings[1..]))
  }

  ghost predicate PathsAsDeepAsLevels(stack: seq<string>, headings: seq<string>) {
    forall k | 0 <= k < |headings| :: |Paths(stack, headings)[k].path| == HeadingLevel(headings[k])
  }

  /** A path is as long as the level of its heading for all headings exactly when none skips a level. */
  lemma {:induction false} PathDepth(stack: seq<string>, headings: seq<string>)
    ensures PathsAsDeepAsLevels(stack, headings) <==> NoLevelSkipped(|stack|, headings)
    decreases |headings|
  {
    hide CleanTitle, HeadingLevel;
    if headings != [] {
      var path, rest := PushHeading(stack, headings[0]), headings[1..];
      PathDepth(path, rest);
      assert Paths(stack, headings)[0].path == path;
      assert forall k | 0 < k < |headings| ::
        headings[k] == rest[k - 1] && Paths(stack, headings)[k] == Paths(path, rest)[k - 1];
      assert |path| == HeadingLevel(headings[0]) <==> HeadingLevel(headings[0]) <= |stack| + 1;
      if |path| == HeadingLevel(headings[0]) {
        DeepTail(stack, headings);
      }
    }
  }

  lemma DeepTail(stack: seq<string>, headings: seq<string>)
    requires headings != [] && |PushHeading(stack, headings[0])| == HeadingLevel(headings[0])
    ensures PathsAsDeepAsLevels(stack, headings)
      <==> PathsAsDeepAsLevels(PushHeading(stack, headings[0]), headings[1..])
  {
    hide CleanTitle, HeadingLevel, PushHeading;
    var path, rest := PushHeading(stack, headings[0]), headings[1..];
    var all, later := Paths(stack, headings), Paths(path, rest);
    assert all[0].path == path;
    assert forall k | 0 <= k < |rest| :: rest[k] == headings[k + 1] && later[k] == all[k + 1];
    assert forall k | 0 < k < |headings| :: headings[k] == rest[k - 1] && all[k] == later[k - 1];
  }

  // ---------------------------------------------------------------- whole documents

  datatype RawChunk = RawChunk(content: string, path: seq<string>, title: Option<string>)

  function Labelled(chunks: seq<string>, section: Section): (raw: seq<RawChunk>) {
    seq(|chunks|, i requires 0 <= i < |chunks| => RawChunk(chunks[i], section.path, section.title))
  }

  function SectionChunks(cfg: Config, section: Section): seq<string> {
    ChunksOf(cfg, SectionText(section))
  }

  function RawChunks(cfg: Config, sections: seq<Section>): seq<RawChunk> {
    if sections == [] then []
    else Labelled(SectionChunks(cfg, sections[0]), sections[0]) + RawChunks(cfg, sections[1..])
  }

  /** The chunks that are not blank, each with the index it was enumerated with. */
  function Numbered(raw: seq<RawChunk>, index: nat): seq<Draft> {
    if raw == [] then []
    else
      (if Strip(raw[0].content) != ""
       then [Draft(index, raw[0].content, raw[0].path, raw[0].title, |raw[0].content|)] else [])
      + Numbered(raw[1..], index + 1)
  }

  function Normalized(text: string): string {
    Strip(UnifyNewlines(text))
  }

  function Drafts(cfg: Config, heading: Classifier, text: string): seq<Draft> {
    if Normalized(text) == "" then []
    else Numbered(RawChunks(cfg, SectionsOf(heading, Normalized(text))), 0)
  }

  method Chunk(cfg: Config, heading: Classifier, text: string) returns (drafts: seq<Draft>)
    ensures drafts == Drafts(cfg, heading, text)
  {
    hide ChunksOf, SectionsOf, Strip, UnifyNewlines, RawChunks, Numbered;
    var normalized := Strip(UnifyNewlines(text));
    if normalized == "" {
      return [];
    }
    var sections := Sections(heading, normalized);
    var raw: seq<RawChunk> := [];
    ghost var goal := RawChunks(cfg, sections);
    assert sections[0..] == sections && [] + goal == goal;
    for s := 0 to |sections|
      invariant raw + RawChunks(cfg, sections[s..]) == goal
    {
      var section := sections[s];
      var prefix := if section.title.Some? && section.title.value != "" then section.title.value + "\n" else "";
      var pieces := SplitBody(cfg, prefix + section.body);
      assert sections[s..] == [section] + sections[s + 1..];
      RawStep(cfg, raw, section, sections[s + 1..]);
      ghost var before := raw;
      for p := 0 to |pieces|
        invariant raw == before + Labelled(pieces[..p], section)
      {
        raw := raw + [RawChunk(pieces[p], section.path, section.title)];
        assert Labelled(pieces[..p + 1], section)
            == Labelled(pieces[..p], section) + [RawChunk(pieces[p], section.path, section.title)];
      }
      assert pieces[..|pieces|] == pieces;
    }
    assert sections[|sections|..] == [];
    RawDone(cfg);
    assert raw == raw + [] == goal;
    drafts := [];
    assert raw[0..] == raw && [] + Numbered(raw, 0) == Numbered(raw, 0);
    for i := 0 to |raw|
      invariant drafts + Numbered(raw[i..], i) == Numbered(raw, 0)
    {
      assert raw[i..] == [raw[i]] + raw[i + 1..];
      NumberStep(drafts, raw[i], raw[i + 1..], i);
      if Strip(raw[i].content) != "" {
        drafts := drafts + [Draft(i, raw[i].content, raw[i].path, raw[i].title, |raw[i].content|)];
      }
    }
    assert raw[|raw|..] == [];
    NumberDone(|raw|);
    assert drafts == drafts + [];
  }

  lemma RawStep(cfg: Config, before: seq<RawChunk>, section: Section, rest: seq<Section>)
    ensures before + RawChunks(cfg, [section] + rest)
         == (before + Labelled(SectionChunks(cfg, section), section)) + RawChunks(cfg, rest)
  {
    assert ([section] + rest)[1..] == rest;
  }

  lemma RawDone(cfg: Config)
    ensures RawChunks(cfg, []) == []
  {
  }

  lemma NumberStep(before: seq<Draft>, raw: RawChunk, rest: seq<RawChunk>, index: nat)
    ensures before + Numbered([raw] + rest, index) ==
      (if Strip(raw.content) != ""
       then before + [Draft(index, raw.content, raw.path, raw.title, |raw.content|)] else before)
      + Numbered(rest, index + 1)
  {
    assert ([raw] + rest)[1..] == rest;
  }

  lemma NumberDone(index: nat)
    ensures Numbered([], index) == []
  {
  }

  predicate AllVisible(raw: seq<RawChunk>) {
    forall i | 0 <= i < |raw| :: raw[i].content != "" && Stripped(raw[i].content)
  }

  lemma {:induction false} RawChunksVisible(cfg: Config, sections: seq<Section>)
    ensures AllVisible(RawChunks(cfg, sections))
  {
    hide ChunksOf, Restore, NonSpace, Stripped;
    if sections != [] {
      SectionLossless(cfg, SectionText(sections[0]));
      RawChunksVisible(cfg, sections[1..]);
    }
  }

  lemma {:induction false} NumberedIndexes(raw: seq<RawChunk>, index: nat)
    requires AllVisible(raw)
    ensures |Numbered(raw, index)| == |raw|
    ensures forall k | 0 <= k < |raw| ::
      Numbered(raw, index)[k] == Draft(index + k, raw[k].content, raw[k].path, raw[k].title, |raw[k].content|)
  {
    hide Strip;
    if raw != [] {
      StripFixed(raw[0].content);
      assert forall i | 0 <= i < |raw[1..]| :: raw[1..][i] == raw[i + 1];
      NumberedIndexes(raw[1..], index + 1);
    }
  }

  /** No chunk is dropped as blank, so the indexes of the drafts are their positions. */
  lemma DraftIndexes(cfg: Config, heading: Classifier, text: string)
    ensures var drafts, raw := Drafts(cfg, heading, text), RawChunks(cfg, SectionsOf(heading, Normalized(text)));
      Normalized(text) != "" ==>
        && |drafts| == |raw|
        && forall k | 0 <= k < |drafts| ::
          drafts[k] == Draft(k, raw[k].content, raw[k].path, raw[k].title, |raw[k].content|)
  {
    hide RawChunks, SectionsOf, Strip, Numbered;
    RawChunksVisible(cfg, SectionsOf(heading, Normalized(text)));
    NumberedIndexes(RawChunks(cfg, SectionsOf(heading, Normalized(text))), 0);
  }

  predicate SectionsWithin(cfg: Config, sections: seq<Section>, bound: int) {
    forall i | 0 <= i < |sections| :: NoLongerThan(SectionChunks(cfg, sections[i]), bound)
  }

  lemma {:induction false} RawChunksBounded(cfg: Config, sections: seq<Section>, bound: int)
    requires SectionsWithin(cfg, sections, bound)
    ensures forall i | 0 <= i < |RawChunks(cfg, sections)| :: |RawChunks(cfg, sections)[i].content| <= bound
  {
    hide SectionChunks;
    if sections != [] {
      RawChunksBounded(cfg, sections[1..], bound);
    }
  }

  /** Every draft of a document is a visible, stripped text within the bound on chunks, and says its length. */
  lemma DraftsBounded(cfg: Config, heading: Classifier, text: string)
    ensures forall d | d in Drafts(cfg, heading, text) ::
      d.content != "" && Stripped(d.content) && d.charCount == |d.content| <= WorstLength(cfg)
  {
    hide RawChunks, SectionsOf, Normalized, Numbered, WorstLength, Stripped, ChunksOf;
    var sections := SectionsOf(heading, Normalized(text));
    RawChunksVisible(cfg, sections);
    forall i | 0 <= i < |sections| ensures NoLongerThan(SectionChunks(cfg, sections[i]), WorstLength(cfg)) {
      ChunkLength(cfg, SectionText(sections[i]));
    }
    RawChunksBounded(cfg, sections, WorstLength(cfg));
    NumberedIndexes(RawChunks(cfg, sections), 0);
  }

  // ---------------------------------------------------------------- the limit, for documents

  /** The lines of words with blank lines between them. */
  function WordLines(words: seq<string>): seq<string> {
    if words == [] then [] else if |words| == 1 then words else [words[0], ""] + WordLines(words[1..])
  }

  lemma WordIsOneLine(word: string)
    requires NoSpaces(word)
    ensures OneLine(word) && '\r' !in word
  {
    assert IsSpace('\r') && forall c: char :: IsLineBreak(c) ==> IsSpace(c);
  }

  lemma {:induction false} WordTextLines(words: seq<string>)
    requires words != [] && Tight(words) && forall i | 0 <= i < |words| :: NoSpaces(words[i])
    ensures var text := Join("\n\n", words);
      && SplitLines(text) == WordLines(words) && Join("\n", WordLines(words)) == text
      && text != "" && Stripped(text) && '\r' !in text
  {
    hide IsSpace, IsLineBreak, NoSpaces, SplitLines, OneLine, Stripped;
    var head := words[0];
    WordIsOneLine(head);
    if |words| == 1 {
      SplitLinesLast(head);
      assert words == [head];
    } else {
      var rest := Join("\n\n", words[1..]);
      WordTextLines(words[1..]);
      BlankLineSplits(head, rest);
      WordLinesJoin(head, words[1..]);
      JoinPart(head, rest);
      assert Join("\n\n", words) == head + "\n\n" + rest;
    }
  }

  lemma BlankLineSplits(line: string, rest: string)
    requires OneLine(line)
    ensures SplitLines(line + "\n\n" + rest) == [line, ""] + SplitLines(rest)
  {
    hide SplitLines;
    SplitLinesCons(line, '\n', "\n" + rest);
    SplitLinesCons("", '\n', rest);
    assert line + ['\n'] + ("\n" + rest) == line + "\n\n" + rest && "" + ['\n'] + rest == "\n" + rest;
    assert [line] + ([""] + SplitLines(rest)) == [line, ""] + SplitLines(rest);
  }

  lemma WordLinesJoin(head: string, tail: seq<string>)
    requires WordLines(tail) != []
    ensures Join("\n", [head, ""] + WordLines(tail)) == head + "\n\n" + Join("\n", WordLines(tail))
  {
    var lines := WordLines(tail);
    assert ([head, ""] + lines)[1..] == [""] + lines && ([""] + lines)[1..] == lines;
    assert head + "\n" + ("" + "\n" + Join("\n", lines)) == head + "\n\n" + Join("\n", lines);
  }

  lemma {:induction false} OneSection(
    heading: Classifier, lines: seq<string>, stack: seq<string>, title: Option<string>, body: seq<string>)
    requires forall i | 0 <= i < |lines| :: !IsHeading(heading, lines[i])
    ensures SectionsFrom(heading, lines, stack, title, body) == [Section(stack, title, BodyText(body + lines))]
    decreases |lines|
  {
    hide IsHeading, BodyText;
    if lines == [] {
      assert body + [] == body;
    } else {
      OneSection(heading, lines[1..], stack, title, body + [lines[0]]);
      assert body + [lines[0]] + lines[1..] == body + lines;
    }
  }

  /** No word is a heading, as under the heading patterns of the chunker. */
  ghost predicate WordsAreText(heading: Classifier) {
    forall n: nat | n >= 1 :: !heading(Word(n))
  }

  lemma {:induction false} NoWordLineIsHeading(heading: Classifier, sizes: seq<nat>)
    requires WordsAreText(heading) && forall i | 0 <= i < |sizes| :: sizes[i] >= 1
    ensures forall i | 0 <= i < |WordLines(Words(sizes))| :: !IsHeading(heading, WordLines(Words(sizes))[i])
  {
    hide Word, Stripped;
    if sizes != [] {
      NoWordLineIsHeading(heading, sizes[1..]);
      StripFixed(Word(sizes[0]));
      StripFixed("");
      assert Words(sizes)[0] == Word(sizes[0]) && Words(sizes)[1..] == Words(sizes[1..]);
    }
  }

  /** A text of words is one section, so its drafts are the chunks of its body. */
  lemma WordTextDrafts(cfg: Config, heading: Classifier, text: string)
    requires IsWordText(text) && WordsAreText(heading)
    ensures var drafts, chunks := Drafts(cfg, heading, text), ChunksOf(cfg, text);
      |drafts| == |chunks| && forall i | 0 <= i < |chunks| :: drafts[i].content == chunks[i]
  {
    hide ChunksOf, Word, Words, WordLines, SplitLines, Stripped, SectionsFrom, UnifyNewlines, Strip, Join, IsHeading;
    var sizes: seq<nat> :| AreSizes(sizes) && text == Join("\n\n", Words(sizes));
    var lines := WordLines(Words(sizes));
    WordsAreTight(sizes);
    WordTextLines(Words(sizes));
    UnifyNewlinesFixed(text);
    StripFixed(text);
    NoWordLineIsHeading(heading, sizes);
    OneSection(heading, lines, [], None, []);
    assert [] + lines == lines;
    var section := Section([], None, text);
    assert SectionsOf(heading, Normalized(text)) == [section];
    OneSectionChunks(cfg, section);
    DraftIndexes(cfg, heading, text);
  }

  lemma WordsAreTight(sizes: seq<nat>)
    requires sizes != [] && forall i | 0 <= i < |sizes| :: sizes[i] >= 1
    ensures Words(sizes) != [] && Tight(Words(sizes)) && forall i | 0 <= i < |Words(sizes)| :: NoSpaces(Words(sizes)[i])
  {
    hide Word;
  }

  lemma OneSectionChunks(cfg: Config, section: Section)
    requires section.title.None?
    ensures RawChunks(cfg, [section]) == Labelled(ChunksOf(cfg, section.body), section)
  {
    hide ChunksOf;
    assert [section][1..] == [] && "" + section.body == section.body;
    assert RawChunks(cfg, []) == [];
  }

  predicate DraftsNoLonger(drafts: seq<Draft>, bound: int) {
    forall i | 0 <= i < |drafts| :: |drafts[i].content| <= bound
  }

  lemma DraftsWithin(cfg: Config, heading: Classifier, text: string)
    ensures MaxHolds(cfg) ==> DraftsNoLonger(Drafts(cfg, heading, text), cfg.max)
    ensures SlackHolds(cfg) ==> DraftsNoLonger(Drafts(cfg, heading, text), cfg.max + 1)
  {
    hide RawChunks, SectionsOf, Normalized, Numbered, ChunksOf, SectionText, MaxHolds, SlackHolds;
    var sections := SectionsOf(heading, Normalized(text));
    DraftIndexes(cfg, heading, text);
    forall i | 0 <= i < |sections|
      ensures MaxHolds(cfg) ==> NoLongerThan(SectionChunks(cfg, sections[i]), cfg.max)
      ensures SlackHolds(cfg) ==> NoLongerThan(SectionChunks(cfg, sections[i]), cfg.max + 1)
    {
      MaxHoldsFor(cfg, SectionText(sections[i]));
    }
    if MaxHolds(cfg) { RawChunksBounded(cfg, sections, cfg.max); }
    if SlackHolds(cfg) { RawChunksBounded(cfg, sections, cfg.max + 1); }
  }

  /**
   For whole documents: with the heading patterns, `max_chars` bounds the drafts of every document
   exactly for an overlap of 3 and a maximum of 6, and `max_chars` and one more exactly when the
   overlap leaves room for a part.
   */
  lemma DocumentLimitsHoldExactly(cfg: Config, heading: Classifier)
    requires WordsAreText(heading)
    ensures (forall text :: DraftsNoLonger(Drafts(cfg, heading, text), cfg.max)) <==> cfg.overlap == 3 && cfg.max == 6
    ensures (forall text :: DraftsNoLonger(Drafts(cfg, heading, text), cfg.max + 1))
      <==> cfg.overlap == 0 || cfg.max - cfg.overlap >= 3 || (cfg.overlap == 3 && cfg.max == 5)
  {
    hide Drafts, ChunksOf, WordsAreText, IsWordText;
    if MaxHolds(cfg) {
      forall text ensures DraftsNoLonger(Drafts(cfg, heading, text), cfg.max) {
        DraftsWithin(cfg, heading, text);
      }
    } else {
      var text := OverMax(cfg);
      WordTextDrafts(cfg, heading, text);
      assert !DraftsNoLonger(Drafts(cfg, heading, text), cfg.max);
    }
    if SlackHolds(cfg) {
      forall text ensures DraftsNoLonger(Drafts(cfg, heading, text), cfg.max + 1) {
        DraftsWithin(cfg, heading, text);
      }
    } else {
      var text := OverSlack(cfg);
      WordTextDrafts(cfg, heading, text);
      assert !DraftsNoLonger(Drafts(cfg, heading, text), cfg.max + 1);
    }
  }

  // ---------------------------------------------------------------- nothing is lost in a document

  /** The text of each section, reassembled from its chunks. */
  function Restored(cfg: Config, sections: seq<Section>): seq<string> {
    if sections == [] then []
    else [Restore(cfg, SectionChunks(cfg, sections[0]))] + Restored(cfg, sections[1..])
  }

  lemma {:induction false} RestoredNonSpace(cfg: Config, sections: seq<Section>)
    ensures NonSpace(Flatten(Restored(cfg, sections))) == NonSpace(Flatten(SectionTexts(sections)))
  {
    hide NonSpace, Restore, ChunksOf, SectionText;
    if sections != [] {
      var head, tail := sections[0], sections[1..];
      RestoredNonSpace(cfg, tail);
      SectionLossless(cfg, SectionText(head));
      FlattenCons(Restore(cfg, SectionChunks(cfg, head)), Restored(cfg, tail));
      NonSpaceConcat(Restore(cfg, SectionChunks(cfg, head)), Flatten(Restored(cfg, tail)));
      SectionTextsCons(head, tail);
      assert sections == [head] + tail;
    }
  }

  /**
   Chunking a document is lossless: reassembling every section from its chunks gives the visible
   characters of the document in order, without the hashes of its headings. A document without
   headings is given back whole.
   */
  lemma DocumentLossless(cfg: Config, heading: Classifier, text: string)
    ensures var lines := SplitLines(Normalized(text));
      && NonSpace(Flatten(Restored(cfg, SectionsOf(heading, Normalized(text))))) == KeptText(heading, lines)
      && ((forall line | line in lines :: !IsHeading(heading, line)) ==> KeptText(heading, lines) == NonSpace(text))
  {
    hide NonSpace, Flatten, SectionTexts, SectionsFrom, Restored, KeptText, SplitLines, UnifyNewlines, Strip;
    var normalized := Normalized(text);
    var lines := SplitLines(normalized);
    RestoredNonSpace(cfg, SectionsOf(heading, normalized));
    SectionsLossless(heading, lines, [], None, []);
    EmptyNonSpace();
    assert "" + "" + KeptText(heading, lines) == KeptText(heading, lines);
    if forall line | line in lines :: !IsHeading(heading, line) {
      KeptWithoutHeadings(heading, lines);
      SplitLinesNonSpace(normalized);
      StripNonSpace(UnifyNewlines(text));
      UnifyNewlinesNonSpace(text);
    }
  }

  lemma {:induction false} KeptWithoutHeadings(heading: Classifier, lines: seq<string>)
    requires forall line | line in lines :: !IsHeading(heading, line)
    ensures KeptText(heading, lines) == NonSpace(Flatten(lines))
  {
    hide IsHeading;
    if lines != [] {
      assert lines[0] in lines && forall line | line in lines[1..] :: line in lines;
      KeptWithoutHeadings(heading, lines[1..]);
      NonSpaceConcat(lines[0], Flatten(lines[1..]));
    }
  }
}
