/**
 The evidence sufficiency gate of `backend/app/rag/evidence.py`: `assess`, `_assess_aspect` and
 what they are made of. The regular expressions and word lists are `Rules`, of which only what
 `Valid` says is used.
 */
module EvidenceGate {
  import opened Scanning
  import opened Sequences
  import Text

  datatype Hit = Hit(chunkId: string, title: string, content: string, metadata: seq<string>)

  datatype Term = Term(text: string, weight: real)

  /** One of the answer shapes: whether the question asks for it, whether the evidence has it. */
  datatype Shape = Shape(asked: string -> bool, found: string -> bool)

  datatype Rules = Rules(
    lower: string -> string,
    aspects: string -> seq<string>,
    terms: string -> seq<Term>,
    strong: string -> bool,
    failClosed: string -> bool,
    relationSupported: (string, string) -> bool,
    scoped: string -> bool,
    scopeSupported: (string, string) -> bool,
    exactValues: string -> seq<string>,
    normalize: string -> string,
    shapes: seq<Shape>)
  {
    /**
     Lower-casing works line by line, weights are positive, and what is found in a lower-cased
     text, a value or an answer shape, is still found when lines are appended to it.
     */
    ghost predicate Valid() {
      && (forall s, t :: lower(s + "\n" + t) == lower(s) + "\n" + lower(t))
      && (forall a, i | 0 <= i < |terms(a)| :: terms(a)[i].weight > 0.0)
      && (forall s, t, v | Contains(normalize(lower(s)), v) :: Contains(normalize(lower(s) + "\n" + t), v))
      && (forall i, s, t | 0 <= i < |shapes| && shapes[i].found(s) :: shapes[i].found(s + "\n" + t))
    }
  }

  datatype Gate = Gate(rules: Rules, minimumConfidence: real, minimumContribution: real)

  datatype Reason =
    | NoRetrievedEvidence | NoSubstantiveAspects | AspectHasNoAnchor | ConstraintMismatch
    | MissingRelation | MissingScopeTarget | MissingAnswerShape | InsufficientRelevance
    | AspectSupported | CoversAllAspects

  datatype Assessment = Assessment(
    aspect: string, supported: bool, confidence: real, reason: Reason, chunkIds: seq<string>)

  datatype Decision = Decision(
    sufficient: bool, confidence: real, reason: Reason, chunkIds: seq<string>, unsupported: seq<string>)

  // ---------------------------------------------------------------- texts and terms

  function Searchable(hit: Hit): string {
    Text.Join("\n", [hit.title, hit.content] + hit.metadata)
  }

  function SearchableTexts(hits: seq<Hit>): seq<string> {
    if hits == [] then [] else [Searchable(hits[0])] + SearchableTexts(hits[1..])
  }

  /** The lower-cased text of some hits, one after the other. */
  function Combined(rules: Rules, hits: seq<Hit>): string {
    rules.lower(Text.Join("\n", SearchableTexts(hits)))
  }

  function AnswerTexts(hits: seq<Hit>): seq<string> {
    if hits == [] then [] else [hits[0].title + "\n" + hits[0].content] + AnswerTexts(hits[1..])
  }

  function TotalWeight(terms: seq<Term>): real {
    if terms == [] then 0.0 else terms[0].weight + TotalWeight(terms[1..])
  }

  function MatchedWeight(terms: seq<Term>, text: string): real {
    if terms == [] then 0.0
    else (if Contains(text, terms[0].text) then terms[0].weight else 0.0) + MatchedWeight(terms[1..], text)
  }

  function Coverage(terms: seq<Term>, text: string): real {
    if TotalWeight(terms) <= 0.0 then 0.0 else MatchedWeight(terms, text) / TotalWeight(terms)
  }

  function StrongMatches(rules: Rules, terms: seq<Term>, text: string): nat {
    if terms == [] then 0
    else
      (if Contains(text, terms[0].text) && rules.strong(terms[0].text) then 1 else 0)
      + StrongMatches(rules, terms[1..], text)
  }

  predicate ShapeSupported(rules: Rules, aspect: string, evidence: string) {
    forall i | 0 <= i < |rules.shapes| :: rules.shapes[i].asked(rules.lower(aspect)) ==> rules.shapes[i].found(evidence)
  }

  predicate ValuesFound(rules: Rules, aspect: string, text: string) {
    var values := rules.exactValues(aspect);
    forall i | 0 <= i < |values| :: Contains(rules.normalize(text), rules.normalize(values[i]))
  }

  // ---------------------------------------------------------------- one aspect

  predicate RelationRequired(rules: Rules, aspect: string) {
    !rules.relationSupported(aspect, "")
  }

  predicate RelationHolds(rules: Rules, aspect: string, hit: Hit) {
    rules.relationSupported(aspect, rules.lower(Searchable(hit)))
  }

  predicate ScopeHolds(rules: Rules, aspect: string, hit: Hit) {
    rules.scopeSupported(aspect, rules.lower(Searchable(hit)))
  }

  function RelationHits(rules: Rules, aspect: string, hits: seq<Hit>): seq<Hit> {
    if hits == [] then []
    else (if RelationHolds(rules, aspect, hits[0]) then [hits[0]] else []) + RelationHits(rules, aspect, hits[1..])
  }

  function ScopeHits(rules: Rules, aspect: string, hits: seq<Hit>): seq<Hit> {
    if hits == [] then []
    else (if ScopeHolds(rules, aspect, hits[0]) then [hits[0]] else []) + ScopeHits(rules, aspect, hits[1..])
  }

  /** The hits that are in each of the filtered lists that is required. */
  function InBoth(
    hits: seq<Hit>, needRelation: bool, relationHits: seq<Hit>, needScope: bool, scopeHits: seq<Hit>): seq<Hit>
  {
    if hits == [] then []
    else
      (if (needRelation ==> hits[0] in relationHits) && (needScope ==> hits[0] in scopeHits) then [hits[0]] else [])
      + InBoth(hits[1..], needRelation, relationHits, needScope, scopeHits)
  }

  function ConstraintHits(rules: Rules, aspect: string, hits: seq<Hit>): seq<Hit> {
    InBoth(
      hits, RelationRequired(rules, aspect), RelationHits(rules, aspect, hits),
      rules.scoped(aspect), ScopeHits(rules, aspect, hits))
  }

  /** The hits an aspect is judged by: all of them when none meets both constraints. */
  function JudgedHits(rules: Rules, aspect: string, hits: seq<Hit>): seq<Hit> {
    if ConstraintHits(rules, aspect, hits) != [] then ConstraintHits(rules, aspect, hits) else hits
  }

  predicate Contributes(gate: Gate, terms: seq<Term>, hit: Hit) {
    var text := gate.rules.lower(Searchable(hit));
    var total := if TotalWeight(terms) != 0.0 then TotalWeight(terms) else 1.0;
    MatchedWeight(terms, text) / total >= gate.minimumContribution && StrongMatches(gate.rules, terms, text) > 0
  }

  function SupportingIds(gate: Gate, terms: seq<Term>, hits: seq<Hit>): seq<string> {
    if hits == [] then []
    else (if Contributes(gate, terms, hits[0]) then [hits[0].chunkId] else []) + SupportingIds(gate, terms, hits[1..])
  }

  function AssessAspect(gate: Gate, aspect: string, hits: seq<Hit>): Assessment {
    var rules, terms := gate.rules, gate.rules.terms(aspect);
    if terms == [] then Assessment(aspect, false, 0.0, AspectHasNoAnchor, [])
    else
      var combined := Combined(rules, hits);
      var confidence := Coverage(terms, combined);
      var judged := JudgedHits(rules, aspect, hits);
      var text := Combined(rules, judged);
      var evidence := if text != "" then text else rules.lower(Text.Join("\n", AnswerTexts(hits)));
      var ids := SupportingIds(gate, terms, judged);
      if rules.failClosed(aspect) then Assessment(aspect, false, confidence, ConstraintMismatch, [])
      else if RelationRequired(rules, aspect) && RelationHits(rules, aspect, hits) == [] then
        Assessment(aspect, false, confidence, MissingRelation, [])
      else if rules.scoped(aspect) && ScopeHits(rules, aspect, hits) == [] then
        Assessment(aspect, false, confidence, MissingScopeTarget, [])
      else if !ValuesFound(rules, aspect, text) then Assessment(aspect, false, confidence, ConstraintMismatch, [])
      else if !ShapeSupported(rules, aspect, evidence) then
        Assessment(aspect, false, confidence, MissingAnswerShape, [])
      else if confidence < gate.minimumConfidence || StrongMatches(rules, terms, combined) == 0 then
        Assessment(aspect, false, confidence, InsufficientRelevance, [])
      else if ids == [] then Assessment(aspect, false, confidence, InsufficientRelevance, [])
      else Assessment(aspect, true, confidence, AspectSupported, ids)
  }

  /** The loop that collects the supporting chunks. */
  method CollectSupporting(gate: Gate, terms: seq<Term>, hits: seq<Hit>) returns (ids: seq<string>)
    ensures ids == SupportingIds(gate, terms, hits)
  {
    hide Contributes;
    ids := [];
    for i := 0 to |hits|
      invariant ids + SupportingIds(gate, terms, hits[i..]) == SupportingIds(gate, terms, hits)
    {
      assert hits[i..][1..] == hits[i + 1..];
      if Contributes(gate, terms, hits[i]) {
        assert SupportingIds(gate, terms, hits[i..]) == [hits[i].chunkId] + SupportingIds(gate, terms, hits[i + 1..]);
        ids := ids + [hits[i].chunkId];
      }
    }
  }

  // ---------------------------------------------------------------- all aspects

  function UniqueFrom(hits: seq<Hit>, seen: set<string>): seq<Hit> {
    if hits == [] then []
    else if hits[0].chunkId in seen then UniqueFrom(hits[1..], seen)
    else [hits[0]] + UniqueFrom(hits[1..], seen + {hits[0].chunkId})
  }

  /** The first hit of each chunk, in order. */
  method UniqueHits(hits: seq<Hit>) returns (unique: seq<Hit>)
    ensures unique == UniqueFrom(hits, {})
  {
    unique := [];
    var seen: set<string> := {};
    for i := 0 to |hits|
      invariant unique + UniqueFrom(hits[i..], seen) == UniqueFrom(hits, {})
    {
      var hit := hits[i];
      assert hits[i..][1..] == hits[i + 1..];
      if hit.chunkId !in seen {
        assert UniqueFrom(hits[i..], seen) == [hit] + UniqueFrom(hits[i + 1..], seen + {hit.chunkId});
        unique := unique + [hit];
        seen := seen + {hit.chunkId};
      }
    }
  }

  function AssessAll(gate: Gate, aspects: seq<string>, hits: seq<Hit>): (r: seq<Assessment>)
    ensures |r| == |aspects|
    ensures forall i | 0 <= i < |aspects| :: r[i] == AssessAspect(gate, aspects[i], hits)
  {
    seq(|aspects|, i requires 0 <= i < |aspects| => AssessAspect(gate, aspects[i], hits))
  }

  function Unsupported(items: seq<Assessment>): seq<string> {
    if items == [] then []
    else (if items[0].supported then [] else [items[0].aspect]) + Unsupported(items[1..])
  }

  /** The reason of the first unsupported aspect. */
  function FirstReason(items: seq<Assessment>): Reason {
    if items == [] then CoversAllAspects
    else if !items[0].supported then items[0].reason
    else FirstReason(items[1..])
  }

  function SupportedIds(items: seq<Assessment>): seq<string> {
    if items == [] then []
    else (if items[0].supported then items[0].chunkIds else []) + SupportedIds(items[1..])
  }

  function LeastConfidence(items: seq<Assessment>): real
    requires items != []
  {
    if |items| == 1 then items[0].confidence
    else
      var later := LeastConfidence(items[1..]);
      if items[0].confidence <= later then items[0].confidence else later
  }

  function Bounded(value: real): real {
    if value < 0.0 then 0.0 else if value > 1.0 then 1.0 else value
  }

  function Assess(gate: Gate, query: string, hits: seq<Hit>): Decision {
    var unique, aspects := UniqueFrom(hits, {}), gate.rules.aspects(query);
    if unique == [] then Decision(false, 0.0, NoRetrievedEvidence, [], [query])
    else if aspects == [] then Decision(false, 0.0, NoSubstantiveAspects, [], [query])
    else
      var items := AssessAll(gate, aspects, unique);
      var confidence := Bounded(LeastConfidence(items));
      var ids := Unique(SupportedIds(items));
      if Unsupported(items) != [] then Decision(false, confidence, FirstReason(items), [], Unsupported(items))
      else if ids == [] then Decision(false, confidence, InsufficientRelevance, [], aspects)
      else Decision(true, confidence, CoversAllAspects, ids, [])
  }

  // ---------------------------------------------------------------- more lines find more

  /** `longer` is `text`, with or without further lines. */
  ghost predicate Lengthens(text: string, longer: string) {
    longer == text || exists more :: longer == text + "\n" + more
  }

  lemma {:induction false} JoinAppend(a: seq<string>, b: seq<string>)
    requires a != [] && b != []
    ensures Text.Join("\n", a + b) == Text.Join("\n", a) + "\n" + Text.Join("\n", b)
  {
    assert (a + b)[1..] == a[1..] + b;
    if |a| > 1 {
      JoinAppend(a[1..], b);
      assert a[0] + "\n" + (Text.Join("\n", a[1..]) + "\n" + Text.Join("\n", b))
          == (a[0] + "\n" + Text.Join("\n", a[1..])) + "\n" + Text.Join("\n", b);
    } else {
      assert a[1..] + b == b;
    }
  }

  lemma {:induction false} SearchableAppend(a: seq<Hit>, b: seq<Hit>)
    ensures SearchableTexts(a + b) == SearchableTexts(a) + SearchableTexts(b)
    ensures a != [] ==> SearchableTexts(a) != []
  {
    hide Searchable;
    if a == [] {
      assert a + b == b;
    } else {
      assert (a + b)[1..] == a[1..] + b;
      SearchableAppend(a[1..], b);
    }
  }

  lemma CombinedLengthens(rules: Rules, hits: seq<Hit>, more: seq<Hit>)
    requires rules.Valid() && hits != []
    ensures Lengthens(Combined(rules, hits), Combined(rules, hits + more))
    ensures Combined(rules, hits) == rules.lower(Text.Join("\n", SearchableTexts(hits)))
  {
    hide SearchableTexts, Text.Join;
    if more == [] {
      assert hits + more == hits;
    } else {
      SearchableAppend(hits, more);
      SearchableAppend(more, []);
      JoinAppend(SearchableTexts(hits), SearchableTexts(more));
    }
  }

  lemma LengthensContains(text: string, longer: string, term: string)
    requires Lengthens(text, longer) && Contains(text, term)
    ensures Contains(longer, term)
  {
    hide Contains;
    if longer != text {
      var more :| longer == text + "\n" + more;
      ContainsInPrefix(text, "\n" + more, term);
      assert text + ("\n" + more) == longer;
    }
  }

  lemma {:induction false} LengthensMatches(rules: Rules, terms: seq<Term>, text: string, longer: string)
    requires Lengthens(text, longer)
    requires forall i | 0 <= i < |terms| :: terms[i].weight > 0.0
    ensures MatchedWeight(terms, text) <= MatchedWeight(terms, longer)
    ensures StrongMatches(rules, terms, text) <= StrongMatches(rules, terms, longer)
  {
    hide Contains, Lengthens;
    if terms != [] {
      LengthensMatches(rules, terms[1..], text, longer);
      if Contains(text, terms[0].text) {
        LengthensContains(text, longer, terms[0].text);
      }
    }
  }

  lemma DivideMonotone(a: real, b: real, total: real)
    requires a <= b && total > 0.0
    ensures a / total <= b / total
  {
  }

  lemma CoverageGrows(rules: Rules, aspect: string, text: string, longer: string)
    requires rules.Valid() && Lengthens(text, longer)
    ensures Coverage(rules.terms(aspect), text) <= Coverage(rules.terms(aspect), longer)
    ensures StrongMatches(rules, rules.terms(aspect), text) <= StrongMatches(rules, rules.terms(aspect), longer)
  {
    hide Contains, Lengthens, MatchedWeight, StrongMatches, TotalWeight;
    var terms := rules.terms(aspect);
    LengthensMatches(rules, terms, text, longer);
    if TotalWeight(terms) > 0.0 {
      DivideMonotone(MatchedWeight(terms, text), MatchedWeight(terms, longer), TotalWeight(terms));
    }
  }

  lemma EvidenceGrows(rules: Rules, aspect: string, hits: seq<Hit>, more: seq<Hit>)
    requires rules.Valid() && hits != []
    ensures var text, longer := Combined(rules, hits), Combined(rules, hits + more);
      && text != "" && longer != ""
      && (ValuesFound(rules, aspect, text) ==> ValuesFound(rules, aspect, longer))
      && (ShapeSupported(rules, aspect, text) ==> ShapeSupported(rules, aspect, longer))
  {
    hide Contains, SearchableTexts, Text.Join;
    var text, longer := Combined(rules, hits), Combined(rules, hits + more);
    CombinedLengthens(rules, hits, more);
    CombinedNotEmpty(rules, hits);
    CombinedNotEmpty(rules, hits + more);
    if longer != text {
      var added :| longer == text + "\n" + added;
      if ValuesFound(rules, aspect, text) {
        var values := rules.exactValues(aspect);
        forall i | 0 <= i < |values| ensures Contains(rules.normalize(longer), rules.normalize(values[i])) {
          assert Contains(rules.normalize(text), rules.normalize(values[i]));
        }
      }
    }
  }

  /** A searchable text holds at least the line break between title and content. */
  lemma CombinedNotEmpty(rules: Rules, hits: seq<Hit>)
    requires rules.Valid() && hits != []
    ensures Combined(rules, hits) != ""
  {
    var first := hits[0];
    var lines := [first.title, first.content] + first.metadata;
    assert lines[1..] == [first.content] + first.metadata;
    var tail := SearchableTexts(hits[1..]);
    var rest := Text.Join("\n", lines[1..]) + (if tail == [] then "" else "\n" + Text.Join("\n", tail));
    assert SearchableTexts(hits) == [Searchable(first)] + tail;
    assert SearchableTexts(hits)[1..] == tail;
    assert Text.Join("\n", SearchableTexts(hits)) == first.title + "\n" + rest;
    assert rules.lower(first.title + "\n" + rest) == rules.lower(first.title) + "\n" + rules.lower(rest);
  }

  // ---------------------------------------------------------------- the hits an aspect is judged by

  /** The hits that meet the constraints asked for. */
  function Meeting(rules: Rules, aspect: string, hits: seq<Hit>): seq<Hit> {
    if hits == [] then []
    else
      (if (RelationRequired(rules, aspect) ==> RelationHolds(rules, aspect, hits[0]))
          && (rules.scoped(aspect) ==> ScopeHolds(rules, aspect, hits[0])) then [hits[0]] else [])
      + Meeting(rules, aspect, hits[1..])
  }

  lemma {:induction false} FilteredMembers(rules: Rules, aspect: string, hits: seq<Hit>)
    ensures forall h :: h in RelationHits(rules, aspect, hits) <==> h in hits && RelationHolds(rules, aspect, h)
    ensures forall h :: h in ScopeHits(rules, aspect, hits) <==> h in hits && ScopeHolds(rules, aspect, h)
  {
    hide RelationHolds, ScopeHolds;
    if hits != [] {
      FilteredMembers(rules, aspect, hits[1..]);
      assert hits == [hits[0]] + hits[1..];
    }
  }

  lemma {:induction false} InBothIsMeeting(
    rules: Rules, aspect: string, hits: seq<Hit>, relationHits: seq<Hit>, scopeHits: seq<Hit>)
    requires forall h | h in hits :: h in relationHits <==> RelationHolds(rules, aspect, h)
    requires forall h | h in hits :: h in scopeHits <==> ScopeHolds(rules, aspect, h)
    ensures InBoth(hits, RelationRequired(rules, aspect), relationHits, rules.scoped(aspect), scopeHits)
         == Meeting(rules, aspect, hits)
  {
    hide RelationHolds, ScopeHolds, RelationRequired;
    if hits != [] {
      assert hits[0] in hits && forall h | h in hits[1..] :: h in hits;
      InBothIsMeeting(rules, aspect, hits[1..], relationHits, scopeHits);
    }
  }

  lemma ConstraintHitsAreMeeting(rules: Rules, aspect: string, hits: seq<Hit>)
    ensures ConstraintHits(rules, aspect, hits) == Meeting(rules, aspect, hits)
  {
    hide InBoth, Meeting, RelationHits, ScopeHits, RelationHolds, ScopeHolds;
    FilteredMembers(rules, aspect, hits);
    InBothIsMeeting(rules, aspect, hits, RelationHits(rules, aspect, hits), ScopeHits(rules, aspect, hits));
  }

  lemma {:induction false} MeetingAppend(rules: Rules, aspect: string, a: seq<Hit>, b: seq<Hit>)
    ensures Meeting(rules, aspect, a + b) == Meeting(rules, aspect, a) + Meeting(rules, aspect, b)
  {
    hide RelationHolds, ScopeHolds, RelationRequired;
    if a == [] {
      assert a + b == b;
    } else {
      assert (a + b)[1..] == a[1..] + b;
      MeetingAppend(rules, aspect, a[1..], b);
    }
  }

  lemma {:induction false} MeetingMembers(rules: Rules, aspect: string, hits: seq<Hit>)
    ensures forall h :: h in Meeting(rules, aspect, hits) <==>
      && h in hits && (RelationRequired(rules, aspect) ==> RelationHolds(rules, aspect, h))
      && (rules.scoped(aspect) ==> ScopeHolds(rules, aspect, h))
  {
    hide RelationHolds, ScopeHolds, RelationRequired;
    if hits != [] {
      MeetingMembers(rules, aspect, hits[1..]);
      assert hits == [hits[0]] + hits[1..];
    }
  }

  /**
   The judged hits only grow: the fallback to all hits is not given up for hits that meet both
   constraints and arrive later.
   */
  predicate KeepsJudged(rules: Rules, aspect: string, hits: seq<Hit>, more: seq<Hit>) {
    ConstraintHits(rules, aspect, hits) != [] || ConstraintHits(rules, aspect, hits + more) == []
  }

  lemma JudgedHitsGrow(rules: Rules, aspect: string, hits: seq<Hit>, more: seq<Hit>) returns (added: seq<Hit>)
    requires KeepsJudged(rules, aspect, hits, more)
    ensures JudgedHits(rules, aspect, hits + more) == JudgedHits(rules, aspect, hits) + added
  {
    hide ConstraintHits, Meeting;
    ConstraintHitsAreMeeting(rules, aspect, hits);
    ConstraintHitsAreMeeting(rules, aspect, hits + more);
    MeetingAppend(rules, aspect, hits, more);
    added := if ConstraintHits(rules, aspect, hits) != [] then Meeting(rules, aspect, more) else more;
  }

  /** With one kind of constraint at most, the fallback is never in use once the aspect is supported. */
  lemma SingleConstraintKeeps(rules: Rules, aspect: string, hits: seq<Hit>, more: seq<Hit>)
    requires !(RelationRequired(rules, aspect) && rules.scoped(aspect)) && hits != []
    requires RelationRequired(rules, aspect) ==> RelationHits(rules, aspect, hits) != []
    requires rules.scoped(aspect) ==> ScopeHits(rules, aspect, hits) != []
    ensures KeepsJudged(rules, aspect, hits, more)
  {
    hide Meeting, RelationHits, ScopeHits, RelationHolds, ScopeHolds, RelationRequired, ConstraintHits;
    ConstraintHitsAreMeeting(rules, aspect, hits);
    FilteredMembers(rules, aspect, hits);
    MeetingMembers(rules, aspect, hits);
    var h := if RelationRequired(rules, aspect) then RelationHits(rules, aspect, hits)[0]
             else if rules.scoped(aspect) then ScopeHits(rules, aspect, hits)[0] else hits[0];
    assert h in Meeting(rules, aspect, hits);
  }

  lemma {:induction false} SupportingAppend(gate: Gate, terms: seq<Term>, a: seq<Hit>, b: seq<Hit>)
    ensures SupportingIds(gate, terms, a + b) == SupportingIds(gate, terms, a) + SupportingIds(gate, terms, b)
  {
    hide Contributes;
    if a == [] {
      assert a + b == b;
    } else {
      assert (a + b)[1..] == a[1..] + b;
      SupportingAppend(gate, terms, a[1..], b);
    }
  }

  lemma FilteredStays(rules: Rules, aspect: string, hits: seq<Hit>, more: seq<Hit>)
    ensures RelationHits(rules, aspect, hits) != [] ==> RelationHits(rules, aspect, hits + more) != []
    ensures ScopeHits(rules, aspect, hits) != [] ==> ScopeHits(rules, aspect, hits + more) != []
  {
    hide RelationHits, ScopeHits, RelationHolds, ScopeHolds;
    FilteredMembers(rules, aspect, hits);
    FilteredMembers(rules, aspect, hits + more);
    if RelationHits(rules, aspect, hits) != [] {
      assert RelationHits(rules, aspect, hits)[0] in RelationHits(rules, aspect, hits + more);
    }
    if ScopeHits(rules, aspect, hits) != [] {
      assert ScopeHits(rules, aspect, hits)[0] in ScopeHits(rules, aspect, hits + more);
    }
  }

  lemma JudgedNotEmpty(rules: Rules, aspect: string, hits: seq<Hit>)
    requires hits != []
    ensures JudgedHits(rules, aspect, hits) != []
  {
  }

  /** A supported aspect stays supported by more hits, at no lower confidence, by the same chunks and more. */
  lemma AspectNeverHurt(gate: Gate, aspect: string, hits: seq<Hit>, more: seq<Hit>)
    requires gate.rules.Valid() && hits != []
    requires AssessAspect(gate, aspect, hits).supported
    requires KeepsJudged(gate.rules, aspect, hits, more)
    ensures var before, after := AssessAspect(gate, aspect, hits), AssessAspect(gate, aspect, hits + more);
      && after.supported && before.confidence <= after.confidence
      && before.chunkIds <= after.chunkIds
  {
    hide Combined, Coverage, JudgedHits, SupportingIds, RelationHits, ScopeHits, RelationRequired, Contributes,
      ShapeSupported, ValuesFound, StrongMatches, KeepsJudged, Rules.Valid;
    var rules, terms := gate.rules, gate.rules.terms(aspect);
    var added := JudgedHitsGrow(rules, aspect, hits, more);
    var judged := JudgedHits(rules, aspect, hits);
    JudgedNotEmpty(rules, aspect, hits);
    FilteredStays(rules, aspect, hits, more);
    CombinedLengthens(rules, hits, more);
    CoverageGrows(rules, aspect, Combined(rules, hits), Combined(rules, hits + more));
    EvidenceGrows(rules, aspect, judged, added);
    SupportingAppend(gate, terms, judged, added);
  }

  lemma SupportedHasIds(gate: Gate, aspect: string, hits: seq<Hit>)
    requires AssessAspect(gate, aspect, hits).supported
    ensures AssessAspect(gate, aspect, hits).chunkIds != []
  {
    hide Combined, Coverage, JudgedHits, SupportingIds, RelationHits, ScopeHits, RelationRequired, Contributes,
      ShapeSupported, ValuesFound, StrongMatches;
  }

  /** What a supported aspect says of its constraints. */
  lemma SupportedMeetsConstraints(gate: Gate, aspect: string, hits: seq<Hit>)
    requires AssessAspect(gate, aspect, hits).supported
    ensures RelationRequired(gate.rules, aspect) ==> RelationHits(gate.rules, aspect, hits) != []
    ensures gate.rules.scoped(aspect) ==> ScopeHits(gate.rules, aspect, hits) != []
  {
    hide Combined, Coverage, JudgedHits, SupportingIds, RelationHits, ScopeHits, RelationRequired, Contributes,
      ShapeSupported, ValuesFound, StrongMatches;
  }

  // ---------------------------------------------------------------- the whole query

  function ChunkIds(hits: seq<Hit>): set<string> {
    set h | h in hits :: h.chunkId
  }

  lemma ChunkIdsCons(first: Hit, rest: seq<Hit>, seen: set<string>)
    ensures (seen + {first.chunkId}) + ChunkIds(rest) == seen + ChunkIds([first] + rest)
    ensures first.chunkId in seen ==> seen + ChunkIds(rest) == seen + ChunkIds([first] + rest)
  {
    assert forall h :: h in [first] + rest <==> h == first || h in rest;
  }

  lemma {:induction false} UniqueAppend(hits: seq<Hit>, extra: seq<Hit>, seen: set<string>)
    ensures UniqueFrom(hits + extra, seen) == UniqueFrom(hits, seen) + UniqueFrom(extra, seen + ChunkIds(hits))
    decreases |hits|
  {
    if hits == [] {
      assert hits + extra == extra && seen + ChunkIds(hits) == seen;
    } else {
      hide ChunkIds;
      var first, rest := hits[0], hits[1..];
      assert (hits + extra)[1..] == rest + extra && hits == [first] + rest;
      ChunkIdsCons(first, rest, seen);
      UniqueAppend(rest, extra, if first.chunkId in seen then seen else seen + {first.chunkId});
    }
  }

  predicate AllSupported(items: seq<Assessment>) {
    forall i | 0 <= i < |items| :: items[i].supported
  }

  lemma {:induction false} UnsupportedEmpty(items: seq<Assessment>)
    ensures Unsupported(items) == [] <==> AllSupported(items)
  {
    if items != [] {
      UnsupportedEmpty(items[1..]);
      assert AllSupported(items) <==> items[0].supported && AllSupported(items[1..]);
    }
  }

  lemma {:induction false} SupportedMembers(items: seq<Assessment>)
    ensures forall id :: id in SupportedIds(items) <==>
      exists i | 0 <= i < |items| :: items[i].supported && id in items[i].chunkIds
  {
    if items != [] {
      SupportedMembers(items[1..]);
      var own := if items[0].supported then items[0].chunkIds else [];
      assert SupportedIds(items) == own + SupportedIds(items[1..]);
      forall id ensures id in SupportedIds(items) <==>
        exists i | 0 <= i < |items| :: items[i].supported && id in items[i].chunkIds
      {
        if i :| 0 <= i < |items| && items[i].supported && id in items[i].chunkIds {
          if i > 0 { assert items[1..][i - 1] == items[i]; }
        }
        if id in SupportedIds(items[1..]) {
          var j :| 0 <= j < |items[1..]| && items[1..][j].supported && id in items[1..][j].chunkIds;
          assert items[j + 1] == items[1..][j];
        }
      }
    }
  }

  /** Each item of `after` improves on the one of `before`. */
  ghost predicate Improves(before: seq<Assessment>, after: seq<Assessment>) {
    && |before| == |after|
    && forall i | 0 <= i < |before| ::
      && after[i].supported && before[i].confidence <= after[i].confidence
      && before[i].chunkIds <= after[i].chunkIds
  }

  lemma {:induction false} LeastImproves(before: seq<Assessment>, after: seq<Assessment>)
    requires before != [] && Improves(before, after)
    ensures LeastConfidence(before) <= LeastConfidence(after)
  {
    if |before| > 1 {
      LeastImproves(before[1..], after[1..]);
    }
  }

  lemma IdsImprove(before: seq<Assessment>, after: seq<Assessment>)
    requires Improves(before, after) && AllSupported(before)
    ensures forall id | id in Unique(SupportedIds(before)) :: id in Unique(SupportedIds(after))
  {
    hide Unique, SupportedIds;
    UniqueIsDistinct(SupportedIds(before));
    UniqueIsDistinct(SupportedIds(after));
    SupportedMembers(before);
    SupportedMembers(after);
    forall id | id in SupportedIds(before) ensures id in SupportedIds(after) {
      var i :| 0 <= i < |before| && before[i].supported && id in before[i].chunkIds;
      assert after[i].supported && id in after[i].chunkIds;
    }
  }

  predicate NotWorse(before: Decision, after: Decision) {
    && after.sufficient && before.confidence <= after.confidence
    && forall id | id in before.chunkIds :: id in after.chunkIds
  }

  lemma SufficientMeans(gate: Gate, query: string, hits: seq<Hit>)
    requires Assess(gate, query, hits).sufficient
    ensures UniqueFrom(hits, {}) != [] && gate.rules.aspects(query) != []
    ensures var items := AssessAll(gate, gate.rules.aspects(query), UniqueFrom(hits, {}));
      && AllSupported(items)
      && Assess(gate, query, hits).confidence == Bounded(LeastConfidence(items))
      && Assess(gate, query, hits).chunkIds == Unique(SupportedIds(items)) != []
  {
    hide AssessAspect, UniqueFrom, LeastConfidence, Unique, SupportedIds, Unsupported, AllSupported;
    UnsupportedEmpty(AssessAll(gate, gate.rules.aspects(query), UniqueFrom(hits, {})));
  }

  /** More evidence does not hurt as long as no aspect gives up its fallback to all hits. */
  lemma MoreEvidenceKeepsJudged(gate: Gate, query: string, hits: seq<Hit>, extra: seq<Hit>)
    requires gate.rules.Valid() && Assess(gate, query, hits).sufficient
    requires var aspects := gate.rules.aspects(query);
      forall i | 0 <= i < |aspects| ::
        KeepsJudged(gate.rules, aspects[i], UniqueFrom(hits, {}), UniqueFrom(extra, ChunkIds(hits)))
    ensures NotWorse(Assess(gate, query, hits), Assess(gate, query, hits + extra))
  {
    hide AssessAspect, UniqueFrom, LeastConfidence, Unique, SupportedIds, Unsupported, KeepsJudged, Rules.Valid;
    var aspects := gate.rules.aspects(query);
    var unique, more := UniqueFrom(hits, {}), UniqueFrom(extra, ChunkIds(hits));
    SufficientMeans(gate, query, hits);
    UniqueGrow(hits, extra);
    var before, after := AssessAll(gate, aspects, unique), AssessAll(gate, aspects, unique + more);
    forall i | 0 <= i < |aspects|
      ensures after[i].supported && before[i].confidence <= after[i].confidence
        && before[i].chunkIds <= after[i].chunkIds
    {
      AspectNeverHurt(gate, aspects[i], unique, more);
    }
    LeastImproves(before, after);
    IdsImprove(before, after);
    UnsupportedEmpty(after);
    assert Assess(gate, query, hits).chunkIds[0] in Unique(SupportedIds(after));
  }

  /**
   More evidence never hurts: for a query none of whose aspects has both a relation and a scope
   constraint, hits that are sufficient stay so with any hits appended, at no lower confidence and
   with every chunk that was supporting.
   */
  lemma MoreEvidenceNeverHurts(gate: Gate, query: string, hits: seq<Hit>, extra: seq<Hit>)
    requires gate.rules.Valid() && Assess(gate, query, hits).sufficient
    requires var aspects := gate.rules.aspects(query);
      forall i | 0 <= i < |aspects| :: !(RelationRequired(gate.rules, aspects[i]) && gate.rules.scoped(aspects[i]))
    ensures NotWorse(Assess(gate, query, hits), Assess(gate, query, hits + extra))
  {
    hide AssessAspect, UniqueFrom, KeepsJudged, NotWorse, Assess, RelationRequired, Rules.Valid, LeastConfidence,
      Unique, SupportedIds;
    var aspects := gate.rules.aspects(query);
    var unique, more := UniqueFrom(hits, {}), UniqueFrom(extra, ChunkIds(hits));
    SufficientMeans(gate, query, hits);
    forall i | 0 <= i < |aspects| ensures KeepsJudged(gate.rules, aspects[i], unique, more) {
      var items := AssessAll(gate, aspects, unique);
      assert items[i].supported;
      SupportedMeetsConstraints(gate, aspects[i], unique);
      SingleConstraintKeeps(gate.rules, aspects[i], unique, more);
    }
    MoreEvidenceKeepsJudged(gate, query, hits, extra);
  }

  // ---------------------------------------------------------------- when hits are sufficient

  /** Some hit meets every constraint that the aspect sets. */
  ghost predicate SomeMeets(rules: Rules, aspect: string, hits: seq<Hit>) {
    exists h :: h in hits && Meets(rules, aspect, h)
  }

  predicate Meets(rules: Rules, aspect: string, hit: Hit) {
    && (!rules.relationSupported(aspect, "") ==> rules.relationSupported(aspect, rules.lower(Searchable(hit))))
    && (rules.scoped(aspect) ==> rules.scopeSupported(aspect, rules.lower(Searchable(hit))))
  }

  lemma MeetsBoth(rules: Rules, aspect: string)
    ensures !rules.relationSupported(aspect, "") <==> RelationRequired(rules, aspect)
    ensures forall h :: rules.relationSupported(aspect, rules.lower(Searchable(h))) <==> RelationHolds(rules, aspect, h)
    ensures forall h :: rules.scopeSupported(aspect, rules.lower(Searchable(h))) <==> ScopeHolds(rules, aspect, h)
    ensures forall h :: Meets(rules, aspect, h) <==>
      && (RelationRequired(rules, aspect) ==> RelationHolds(rules, aspect, h))
      && (rules.scoped(aspect) ==> ScopeHolds(rules, aspect, h))
  {
    hide Searchable;
  }

  /** The hit may be among those that an aspect is judged by. */
  ghost predicate Judges(rules: Rules, aspect: string, hits: seq<Hit>, hit: Hit) {
    hit in hits && (SomeMeets(rules, aspect, hits) ==> Meets(rules, aspect, hit))
  }

  ghost predicate IsSupporting(gate: Gate, aspect: string, hits: seq<Hit>, hit: Hit) {
    Judges(gate.rules, aspect, hits, hit) && Contributes(gate, gate.rules.terms(aspect), hit)
  }

  /** What an aspect needs of the hits, in any order: none of it stands in for another. */
  ghost predicate AspectMet(gate: Gate, aspect: string, hits: seq<Hit>) {
    var rules, terms := gate.rules, gate.rules.terms(aspect);
    && terms != [] && !rules.failClosed(aspect)
    && (!rules.relationSupported(aspect, "") ==>
          exists h :: h in hits && rules.relationSupported(aspect, rules.lower(Searchable(h))))
    && (rules.scoped(aspect) ==> exists h :: h in hits && rules.scopeSupported(aspect, rules.lower(Searchable(h))))
    && ValuesFound(rules, aspect, Combined(rules, JudgedHits(rules, aspect, hits)))
    && ShapeSupported(rules, aspect, Combined(rules, JudgedHits(rules, aspect, hits)))
    && Coverage(terms, Combined(rules, hits)) >= gate.minimumConfidence
    && (exists t :: t in terms && rules.strong(t.text) && Contains(Combined(rules, hits), t.text))
    && (exists h :: IsSupporting(gate, aspect, hits, h))
  }

  lemma {:induction false} StrongMatchesExactly(rules: Rules, terms: seq<Term>, text: string)
    ensures StrongMatches(rules, terms, text) > 0 <==>
      exists t :: t in terms && rules.strong(t.text) && Contains(text, t.text)
  {
    hide Contains;
    if terms != [] {
      StrongMatchesExactly(rules, terms[1..], text);
      assert terms == [terms[0]] + terms[1..];
    }
  }

  // ---------------------------------------------------------------- what coverage measures

  ghost predicate Weighty(terms: seq<Term>) {
    terms != [] && forall t | t in terms :: t.weight > 0.0
  }

  /** The weight found lies between nothing and all, and reaches either end only there. */
  lemma {:induction false} MatchedExactly(terms: seq<Term>, text: string)
    requires forall t | t in terms :: t.weight > 0.0
    ensures 0.0 <= MatchedWeight(terms, text) <= TotalWeight(terms)
    ensures MatchedWeight(terms, text) == TotalWeight(terms) <==> forall t | t in terms :: Contains(text, t.text)
    ensures MatchedWeight(terms, text) == 0.0 <==> forall t | t in terms :: !Contains(text, t.text)
    ensures terms != [] ==> TotalWeight(terms) > 0.0
  {
    hide Contains;
    if terms != [] {
      var first, rest := terms[0], terms[1..];
      assert terms == [first] + rest;
      MatchedExactly(rest, text);
    }
  }

  /** Coverage lies in [0, 1]; it is 1 exactly when every term is in the text and 0 exactly when none is. */
  lemma CoverageExactly(terms: seq<Term>, text: string)
    requires Weighty(terms)
    ensures 0.0 <= Coverage(terms, text) <= 1.0
    ensures Coverage(terms, text) == 1.0 <==> forall t | t in terms :: Contains(text, t.text)
    ensures Coverage(terms, text) == 0.0 <==> forall t | t in terms :: !Contains(text, t.text)
  {
    hide Contains, MatchedWeight, TotalWeight;
    MatchedExactly(terms, text);
    Shares(MatchedWeight(terms, text), TotalWeight(terms));
  }

  lemma Shares(part: real, whole: real)
    requires 0.0 <= part <= whole && whole > 0.0
    ensures 0.0 <= part / whole <= 1.0
    ensures part / whole == 1.0 <==> part == whole
    ensures part / whole == 0.0 <==> part == 0.0
  {
    var share := part / whole;
    assert share * whole == part;
    if share == 1.0 { assert share * whole == whole; }
    DivideMonotone(part, whole, whole);
    assert whole / whole == 1.0;
  }

  /** The texts contain the same terms, but that `longer` contains the i-th one and `text` does not. */
  ghost predicate FindsAlso(terms: seq<Term>, text: string, longer: string, i: nat) {
    && i < |terms| && !Contains(text, terms[i].text) && Contains(longer, terms[i].text)
    && forall j | 0 <= j < |terms| && j != i :: Contains(longer, terms[j].text) == Contains(text, terms[j].text)
  }

  lemma {:induction false} SameMatched(terms: seq<Term>, text: string, longer: string)
    requires forall j | 0 <= j < |terms| :: Contains(longer, terms[j].text) == Contains(text, terms[j].text)
    ensures MatchedWeight(terms, longer) == MatchedWeight(terms, text)
  {
    hide Contains;
    if terms != [] {
      assert forall j | 0 <= j < |terms[1..]| :: terms[1..][j] == terms[j + 1];
      SameMatched(terms[1..], text, longer);
    }
  }

  lemma {:induction false} MatchedRises(terms: seq<Term>, text: string, longer: string, i: nat)
    requires FindsAlso(terms, text, longer, i)
    ensures MatchedWeight(terms, longer) == MatchedWeight(terms, text) + terms[i].weight
  {
    hide Contains;
    assert forall j | 0 <= j < |terms[1..]| :: terms[1..][j] == terms[j + 1];
    if i == 0 {
      SameMatched(terms[1..], text, longer);
    } else {
      MatchedRises(terms[1..], text, longer, i - 1);
    }
  }

  /** One more term found raises the coverage by the weight of that term over the total. */
  lemma CoverageRises(terms: seq<Term>, text: string, longer: string, i: nat)
    requires Weighty(terms) && i < |terms| && FindsAlso(terms, text, longer, i)
    ensures TotalWeight(terms) > 0.0
    ensures Coverage(terms, longer) == Coverage(terms, text) + terms[i].weight / TotalWeight(terms)
  {
    hide Contains, MatchedWeight, TotalWeight, FindsAlso;
    MatchedExactly(terms, text);
    MatchedRises(terms, text, longer, i);
    AddShares(MatchedWeight(terms, text), terms[i].weight, MatchedWeight(terms, longer), TotalWeight(terms));
  }

  lemma AddShares(a: real, b: real, sum: real, whole: real)
    requires whole > 0.0 && sum == a + b
    ensures sum / whole == a / whole + b / whole
  {
  }

  /** A hit contributes exactly when it covers enough of the terms by itself and holds a strong one. */
  lemma ContributesExactly(gate: Gate, terms: seq<Term>, hit: Hit)
    requires Weighty(terms)
    ensures var text := gate.rules.lower(Searchable(hit));
      Contributes(gate, terms, hit) <==>
        && Coverage(terms, text) >= gate.minimumContribution
        && exists t :: t in terms && gate.rules.strong(t.text) && Contains(text, t.text)
  {
    hide Contains, MatchedWeight, TotalWeight, Searchable, StrongMatches;
    MatchedExactly(terms, gate.rules.lower(Searchable(hit)));
    StrongMatchesExactly(gate.rules, terms, gate.rules.lower(Searchable(hit)));
  }

  // ---------------------------------------------------------------- what is searched

  lemma MatchInPart(text: string, from: nat, part: string, needle: string, i: nat)
    requires from + |part| <= |text| && text[from..from + |part|] == part && i + |needle| <= |part|
    ensures MatchAt(text, needle, from + i) <==> MatchAt(part, needle, i)
  {
    var n := |needle|;
    var x, y := text[from + i..from + i + n], part[i..i + n];
    assert forall k | 0 <= k < n :: x[k] == text[from + i + k] == text[from..from + |part|][i + k] == y[k];
    assert x == y;
  }

  lemma MatchHasNoNewline(text: string, needle: string, i: nat, k: nat)
    requires MatchAt(text, needle, i) && '\n' !in needle && i <= k < i + |needle|
    ensures text[k] != '\n'
  {
    assert text[i..i + |needle|][k - i] == text[k];
  }

  lemma FoundInEither(a: string, b: string, needle: string)
    requires '\n' !in needle
    ensures Contains(a + "\n" + b, needle) <==> Contains(a, needle) || Contains(b, needle)
  {
    hide Contains, MatchAt;
    var text := a + "\n" + b;
    assert text[0..|a|] == a && text[|a|] == '\n' && text[|a| + 1..|a| + 1 + |b|] == b;
    ContainsMatch(text, needle);
    ContainsMatch(a, needle);
    ContainsMatch(b, needle);
    if i :| MatchAt(text, needle, i) {
      MatchFits(text, needle, i);
      if i + |needle| <= |a| {
        MatchInPart(text, 0, a, needle, i);
      } else if i > |a| {
        MatchInPart(text, |a| + 1, b, needle, i - |a| - 1);
      } else {
        MatchHasNoNewline(text, needle, i, |a|);
      }
    }
    if i :| MatchAt(a, needle, i) {
      MatchFits(a, needle, i);
      MatchInPart(text, 0, a, needle, i);
    }
    if i :| MatchAt(b, needle, i) {
      MatchFits(b, needle, i);
      MatchInPart(text, |a| + 1, b, needle, i);
    }
  }

  lemma MatchFits(text: string, needle: string, i: int)
    requires MatchAt(text, needle, i)
    ensures 0 <= i && i + |needle| <= |text|
  {
  }

  lemma {:induction false} FoundInJoined(rules: Rules, lines: seq<string>, needle: string)
    requires rules.Valid() && '\n' !in needle && lines != []
    ensures Contains(rules.lower(Text.Join("\n", lines)), needle) <==>
      exists line :: line in lines && Contains(rules.lower(line), needle)
  {
    hide Contains;
    var first, rest := lines[0], lines[1..];
    assert lines == [first] + rest;
    if rest != [] {
      FoundInJoined(rules, rest, needle);
      assert Text.Join("\n", lines) == first + "\n" + Text.Join("\n", rest);
      FoundInEither(rules.lower(first), rules.lower(Text.Join("\n", rest)), needle);
    }
  }

  /** A line of a hit: its title, its content or an entry of its metadata. */
  predicate IsLine(hit: Hit, line: string) {
    line == hit.title || line == hit.content || line in hit.metadata
  }

  lemma {:induction false} SearchableOf(hits: seq<Hit>, text: string)
    ensures text in SearchableTexts(hits) <==> exists h :: h in hits && text == Searchable(h)
  {
    hide Searchable;
    if hits != [] {
      SearchableOf(hits[1..], text);
      assert hits == [hits[0]] + hits[1..];
    }
  }

  lemma FoundInHit(rules: Rules, hit: Hit, needle: string)
    requires rules.Valid() && '\n' !in needle
    ensures Contains(rules.lower(Searchable(hit)), needle) <==>
      exists line :: IsLine(hit, line) && Contains(rules.lower(line), needle)
  {
    hide Contains, Text.Join, Rules.Valid;
    var lines := [hit.title, hit.content] + hit.metadata;
    FoundInJoined(rules, lines, needle);
    assert lines[0] == hit.title && lines[1] == hit.content;
    assert forall line :: line in lines <==> IsLine(hit, line);
  }

  /** What is found in the combined text of some hits is exactly what is found in a line of one of them. */
  lemma FoundInSomeLine(rules: Rules, hits: seq<Hit>, needle: string)
    requires rules.Valid() && '\n' !in needle && hits != []
    ensures Contains(Combined(rules, hits), needle) <==>
      exists h, line :: h in hits && IsLine(h, line) && Contains(rules.lower(line), needle)
  {
    hide Contains, Text.Join, Rules.Valid, Searchable, IsLine, SearchableTexts;
    SearchableAppend(hits, []);
    assert SearchableTexts(hits) != [];
    FoundInJoined(rules, SearchableTexts(hits), needle);
    if text :| text in SearchableTexts(hits) && Contains(rules.lower(text), needle) {
      SearchableOf(hits, text);
      var h :| h in hits && text == Searchable(h);
      FoundInHit(rules, h, needle);
    }
    if h, line :| h in hits && IsLine(h, line) && Contains(rules.lower(line), needle) {
      FoundInHit(rules, h, needle);
      SearchableOf(hits, Searchable(h));
    }
  }

  /** Every exact value of the aspect is in the text, and every answer shape it asks for. */
  lemma ConstraintsExactly(rules: Rules, aspect: string, text: string)
    ensures ValuesFound(rules, aspect, text) <==>
      forall v | v in rules.exactValues(aspect) :: Contains(rules.normalize(text), rules.normalize(v))
    ensures ShapeSupported(rules, aspect, text) <==>
      forall shape | shape in rules.shapes && shape.asked(rules.lower(aspect)) :: shape.found(text)
  {
    hide Contains;
  }

  /** Without hits, or without an aspect to judge them by, the query itself is what is not supported. */
  lemma NothingToAssess(gate: Gate, query: string, hits: seq<Hit>)
    requires hits == [] || gate.rules.aspects(query) == []
    ensures var d := Assess(gate, query, hits);
      && !d.sufficient && d.confidence == 0.0 && d.chunkIds == [] && d.unsupported == [query]
      && d.reason == if hits == [] then NoRetrievedEvidence else NoSubstantiveAspects
  {
    hide AssessAspect;
    if hits != [] { SomeUnique(hits); }
  }

  // ---------------------------------------------------------------- what the verdict says

  /** The confidence of an aspect is the coverage of its terms by all the hits, 0 without terms. */
  lemma AspectConfidence(gate: Gate, aspect: string, hits: seq<Hit>)
    requires gate.rules.Valid()
    ensures var confidence, terms := AssessAspect(gate, aspect, hits).confidence, gate.rules.terms(aspect);
      && 0.0 <= confidence <= 1.0
      && (confidence == 1.0 <==> terms != [] && forall t | t in terms :: Contains(Combined(gate.rules, hits), t.text))
      && (confidence == 0.0 <==> forall t | t in terms :: !Contains(Combined(gate.rules, hits), t.text))
  {
    hide Combined, Coverage, SupportingIds, RelationHits, ScopeHits, RelationRequired, Contributes,
      ShapeSupported, ValuesFound, StrongMatches, JudgedHits, Contains;
    var terms := gate.rules.terms(aspect);
    if terms != [] {
      assert Weighty(terms);
      CoverageExactly(terms, Combined(gate.rules, hits));
    }
  }

  lemma {:induction false} LeastIsAttained(items: seq<Assessment>)
    requires items != []
    ensures exists i | 0 <= i < |items| :: items[i].confidence == LeastConfidence(items)
    ensures forall i | 0 <= i < |items| :: LeastConfidence(items) <= items[i].confidence
  {
    if |items| > 1 {
      LeastIsAttained(items[1..]);
      var k :| 0 <= k < |items[1..]| && items[1..][k].confidence == LeastConfidence(items[1..]);
      assert items[k + 1] == items[1..][k];
      forall i | 0 <= i < |items| ensures LeastConfidence(items) <= items[i].confidence {
        if i > 0 { assert items[i] == items[1..][i - 1]; }
      }
      assert items[0].confidence == LeastConfidence(items) || items[k + 1].confidence == LeastConfidence(items);
    } else {
      assert items[0].confidence == LeastConfidence(items);
    }
  }

  /** The confidence of a decision is that of some aspect and exceeds that of none. */
  lemma ConfidenceIsLeast(gate: Gate, query: string, hits: seq<Hit>)
    requires gate.rules.Valid() && hits != [] && gate.rules.aspects(query) != []
    ensures var unique, aspects := UniqueFrom(hits, {}), gate.rules.aspects(query);
      var confidence := Assess(gate, query, hits).confidence;
      && (exists a :: a in aspects && confidence == AssessAspect(gate, a, unique).confidence)
      && (forall a | a in aspects :: confidence <= AssessAspect(gate, a, unique).confidence)
  {
    hide AssessAspect, UniqueFrom, LeastConfidence, Unique, SupportedIds, Unsupported, Rules.Valid;
    var unique, aspects := UniqueFrom(hits, {}), gate.rules.aspects(query);
    SomeUnique(hits);
    var items := AssessAll(gate, aspects, unique);
    LeastIsAttained(items);
    var i :| 0 <= i < |items| && items[i].confidence == LeastConfidence(items);
    AspectConfidence(gate, aspects[i], unique);
    assert aspects[i] in aspects;
  }

  lemma {:induction false} SupportingIdsAre(gate: Gate, terms: seq<Term>, hits: seq<Hit>)
    ensures forall id :: id in SupportingIds(gate, terms, hits) <==>
      exists h :: h in hits && Contributes(gate, terms, h) && h.chunkId == id
  {
    hide Contributes;
    if hits != [] {
      SupportingIdsAre(gate, terms, hits[1..]);
      assert hits == [hits[0]] + hits[1..];
    }
  }

  lemma JudgedHitsAre(rules: Rules, aspect: string, hits: seq<Hit>)
    ensures forall h :: h in JudgedHits(rules, aspect, hits) <==> Judges(rules, aspect, hits, h)
  {
    hide RelationRequired, RelationHolds, ScopeHolds, ConstraintHits, Meeting, Meets;
    MeetsBoth(rules, aspect);
    ConstraintHitsAreMeeting(rules, aspect, hits);
    MeetingMembers(rules, aspect, hits);
    HasMember(Meeting(rules, aspect, hits));
  }

  /** An aspect is supported exactly when it has all that it needs, and by exactly the supporting hits. */
  lemma AspectSupportedExactly(gate: Gate, aspect: string, hits: seq<Hit>)
    requires gate.rules.Valid() && hits != []
    ensures AssessAspect(gate, aspect, hits).supported <==> AspectMet(gate, aspect, hits)
    ensures AssessAspect(gate, aspect, hits).supported ==>
      forall id :: id in AssessAspect(gate, aspect, hits).chunkIds <==>
      exists h :: IsSupporting(gate, aspect, hits, h) && h.chunkId == id
  {
    hide Combined, Coverage, RelationHolds, ScopeHolds, RelationRequired, Contributes, ShapeSupported, ValuesFound,
      StrongMatches, SupportingIds, RelationHits, ScopeHits, JudgedHits, Judges, Contains, Rules.Valid;
    var rules, terms := gate.rules, gate.rules.terms(aspect);
    var judged := JudgedHits(rules, aspect, hits);
    MeetsBoth(rules, aspect);
    FilteredMembers(rules, aspect, hits);
    HasMember(RelationHits(rules, aspect, hits));
    HasMember(ScopeHits(rules, aspect, hits));
    JudgedNotEmpty(rules, aspect, hits);
    CombinedNotEmpty(rules, judged);
    JudgedHitsAre(rules, aspect, hits);
    StrongMatchesExactly(rules, terms, Combined(rules, hits));
    SupportingIdsAre(gate, terms, judged);
    forall h | h in judged && Contributes(gate, terms, h) ensures IsSupporting(gate, aspect, hits, h) {
    }
    HasMember(SupportingIds(gate, terms, judged));
    if h :| IsSupporting(gate, aspect, hits, h) { assert h.chunkId in SupportingIds(gate, terms, judged); }
    if h :| h in hits && RelationHolds(rules, aspect, h) { assert h in RelationHits(rules, aspect, hits); }
    if h :| h in hits && ScopeHolds(rules, aspect, h) { assert h in ScopeHits(rules, aspect, hits); }
  }

  /** The reason given for an aspect names a requirement that the hits fail, or that they fail none. */
  lemma ReasonNamesCause(gate: Gate, aspect: string, hits: seq<Hit>)
    requires gate.rules.Valid() && hits != []
    ensures var rules, terms, reason := gate.rules, gate.rules.terms(aspect), AssessAspect(gate, aspect, hits).reason;
      && (reason == AspectSupported <==> AspectMet(gate, aspect, hits))
      && (reason == AspectHasNoAnchor <==> terms == [])
      && (reason == MissingRelation ==>
        RelationRequired(rules, aspect) && forall h | h in hits :: !RelationHolds(rules, aspect, h))
      && (reason == MissingScopeTarget ==>
        rules.scoped(aspect) && forall h | h in hits :: !ScopeHolds(rules, aspect, h))
      && (reason == ConstraintMismatch ==>
            rules.failClosed(aspect) || !ValuesFound(rules, aspect, Combined(rules, JudgedHits(rules, aspect, hits))))
      && (reason == MissingAnswerShape ==>
        !ShapeSupported(rules, aspect, Combined(rules, JudgedHits(rules, aspect, hits))))
      && (reason == InsufficientRelevance ==>
            || Coverage(terms, Combined(rules, hits)) < gate.minimumConfidence
            || (forall t | t in terms :: !rules.strong(t.text) || !Contains(Combined(rules, hits), t.text))
            || !exists h :: IsSupporting(gate, aspect, hits, h))
  {
    hide Combined, Coverage, RelationHolds, ScopeHolds, RelationRequired, Contributes, ShapeSupported, ValuesFound,
      StrongMatches, SupportingIds, RelationHits, ScopeHits, JudgedHits, IsSupporting, Contains, Rules.Valid, AspectMet;
    var rules, terms := gate.rules, gate.rules.terms(aspect);
    var judged := JudgedHits(rules, aspect, hits);
    AspectSupportedExactly(gate, aspect, hits);
    FilteredMembers(rules, aspect, hits);
    JudgedNotEmpty(rules, aspect, hits);
    CombinedNotEmpty(rules, judged);
    StrongMatchesExactly(rules, terms, Combined(rules, hits));
    SupportingAreNamed(gate, aspect, hits);
  }

  lemma SupportingAreNamed(gate: Gate, aspect: string, hits: seq<Hit>)
    ensures SupportingIds(gate, gate.rules.terms(aspect), JudgedHits(gate.rules, aspect, hits)) == [] <==>
      !exists h :: IsSupporting(gate, aspect, hits, h)
  {
    hide RelationHolds, ScopeHolds, RelationRequired, Contributes, SupportingIds, JudgedHits, Judges;
    var terms, judged := gate.rules.terms(aspect), JudgedHits(gate.rules, aspect, hits);
    JudgedHitsAre(gate.rules, aspect, hits);
    SupportingIdsAre(gate, terms, judged);
    HasMember(SupportingIds(gate, terms, judged));
    forall h | h in judged && Contributes(gate, terms, h) ensures IsSupporting(gate, aspect, hits, h) {
    }
    if h :| IsSupporting(gate, aspect, hits, h) { assert h.chunkId in SupportingIds(gate, terms, judged); }
  }

  /**
   Hits are sufficient exactly when there are some, the query has an aspect, and each aspect is met by
   the first hit of each chunk; the chunks named are those that support some aspect, each once.
   */
  lemma SufficientExactly(gate: Gate, query: string, hits: seq<Hit>)
    requires gate.rules.Valid()
    ensures var unique, aspects, decision := UniqueFrom(hits, {}), gate.rules.aspects(query), Assess(gate, query, hits);
      && (decision.sufficient <==>
            hits != [] && aspects != [] && forall a | a in aspects :: AspectMet(gate, a, unique))
      && (decision.sufficient ==> Distinct(decision.chunkIds) && forall id :: id in decision.chunkIds <==>
            exists a, h :: a in aspects && IsSupporting(gate, a, unique, h) && h.chunkId == id)
  {
    hide AssessAspect, AspectMet, IsSupporting, UniqueFrom, Rules.Valid, LeastConfidence, SupportedIds, Unique,
      Distinct;
    var unique, aspects := UniqueFrom(hits, {}), gate.rules.aspects(query);
    SomeUnique(hits);
    if unique != [] && aspects != [] {
      var items := AssessAll(gate, aspects, unique);
      forall i | 0 <= i < |aspects| ensures items[i].supported <==> AspectMet(gate, aspects[i], unique) {
        AspectSupportedExactly(gate, aspects[i], unique);
      }
      UnsupportedEmpty(items);
      if AllSupported(items) {
        SupportedHasIds(gate, aspects[0], unique);
        NamedChunks(gate, aspects, unique, items);
        assert items[0].chunkIds[0] in SupportedIds(items);
      }
      assert AllSupported(items) <==> forall a | a in aspects :: AspectMet(gate, a, unique);
    }
  }

  lemma {:induction false} UnsupportedAre(items: seq<Assessment>)
    ensures forall a :: a in Unsupported(items) <==>
      exists i :: 0 <= i < |items| && !items[i].supported && items[i].aspect == a
    ensures Unsupported(items) != [] ==>
      exists i :: IsFirstUnsupported(items, i) && FirstReason(items) == items[i].reason
  {
    if items != [] {
      var rest := items[1..];
      UnsupportedAre(rest);
      forall a ensures a in Unsupported(items) <==>
        exists i :: 0 <= i < |items| && !items[i].supported && items[i].aspect == a
      {
        if i :| 0 <= i < |items| && !items[i].supported && items[i].aspect == a {
          if i > 0 { assert rest[i - 1] == items[i]; }
        }
        if i :| 0 <= i < |rest| && !rest[i].supported && rest[i].aspect == a { assert items[i + 1] == rest[i]; }
      }
      if !items[0].supported {
        assert IsFirstUnsupported(items, 0);
      } else if Unsupported(rest) != [] {
        var i :| IsFirstUnsupported(rest, i) && FirstReason(rest) == rest[i].reason;
        assert IsFirstUnsupported(items, i + 1);
      }
    }
  }

  predicate IsFirstUnsupported(items: seq<Assessment>, i: int) {
    0 <= i < |items| && !items[i].supported && forall j | 0 <= j < i :: items[j].supported
  }

  /**
   A decision against some aspect names no chunk, lists exactly the aspects that are not met and gives
   the reason of the first of them.
   */
  lemma RefusalNamesUnmet(gate: Gate, query: string, hits: seq<Hit>)
    requires gate.rules.Valid() && hits != [] && gate.rules.aspects(query) != []
    ensures var unique, aspects, decision := UniqueFrom(hits, {}), gate.rules.aspects(query), Assess(gate, query, hits);
      !decision.sufficient ==>
        && decision.chunkIds == []
        && (forall a :: a in decision.unsupported <==> a in aspects && !AspectMet(gate, a, unique))
        && exists i :: 0 <= i < |aspects| && !AspectMet(gate, aspects[i], unique)
             && (forall j | 0 <= j < i :: AspectMet(gate, aspects[j], unique))
             && decision.reason == AssessAspect(gate, aspects[i], unique).reason
  {
    hide AssessAspect, AspectMet, IsSupporting, UniqueFrom, Rules.Valid, LeastConfidence, SupportedIds, Unique,
      Unsupported, FirstReason;
    var unique, aspects := UniqueFrom(hits, {}), gate.rules.aspects(query);
    SomeUnique(hits);
    SufficientExactly(gate, query, hits);
    var items := AssessAll(gate, aspects, unique);
    forall i | 0 <= i < |aspects|
      ensures items[i].supported <==> AspectMet(gate, aspects[i], unique)
      ensures items[i].aspect == aspects[i]
    {
      AspectSupportedExactly(gate, aspects[i], unique);
      AssessesItsAspect(gate, aspects[i], unique);
    }
    UnsupportedAre(items);
    if !Assess(gate, query, hits).sufficient {
      var a :| a in aspects && !AspectMet(gate, a, unique);
      var k :| 0 <= k < |aspects| && aspects[k] == a;
      assert !items[k].supported && items[k].aspect == a;
      assert a in Unsupported(items);
      var i :| IsFirstUnsupported(items, i) && FirstReason(items) == items[i].reason;
      assert forall j | 0 <= j < i :: AspectMet(gate, aspects[j], unique);
    }
  }

  lemma AssessesItsAspect(gate: Gate, aspect: string, hits: seq<Hit>)
    ensures AssessAspect(gate, aspect, hits).aspect == aspect
  {
    hide Combined, Coverage, SupportingIds, RelationHits, ScopeHits, RelationRequired, Contributes,
      ShapeSupported, ValuesFound, StrongMatches, JudgedHits;
  }

  lemma NamedChunks(gate: Gate, aspects: seq<string>, hits: seq<Hit>, items: seq<Assessment>)
    requires gate.rules.Valid() && hits != []
    requires items == AssessAll(gate, aspects, hits) && AllSupported(items)
    ensures Distinct(Unique(SupportedIds(items)))
    ensures forall id :: id in Unique(SupportedIds(items)) <==> id in SupportedIds(items)
    ensures forall id :: id in SupportedIds(items) <==>
      exists a, h :: a in aspects && IsSupporting(gate, a, hits, h) && h.chunkId == id
    ensures forall i, id | 0 <= i < |items| && id in items[i].chunkIds :: id in SupportedIds(items)
  {
    hide AssessAspect, IsSupporting, Rules.Valid, SupportedIds, Unique, Distinct;
    UniqueIsDistinct(SupportedIds(items));
    SupportedMembers(items);
    forall i | 0 <= i < |aspects|
      ensures forall id :: id in items[i].chunkIds <==>
        exists h :: IsSupporting(gate, aspects[i], hits, h) && h.chunkId == id
    {
      AspectSupportedExactly(gate, aspects[i], hits);
    }
  }

  lemma SomeUnique(hits: seq<Hit>)
    ensures UniqueFrom(hits, {}) == [] <==> hits == []
  {
  }

  /** The first hit of its chunk, and of none of the chunks seen before. */
  ghost predicate IsFirst(hits: seq<Hit>, seen: set<string>, i: int, hit: Hit) {
    && 0 <= i < |hits| && hits[i] == hit && hit.chunkId !in seen
    && forall j | 0 <= j < i :: hits[j].chunkId != hit.chunkId
  }

  /** The hits that remain are the first ones of their chunks, and no chunk has two. */
  lemma {:induction false} UniqueHitsAreFirst(hits: seq<Hit>, seen: set<string>)
    ensures forall h :: h in UniqueFrom(hits, seen) <==> exists i :: IsFirst(hits, seen, i, h)
    ensures forall i, j | 0 <= i < j < |UniqueFrom(hits, seen)| ::
      UniqueFrom(hits, seen)[i].chunkId != UniqueFrom(hits, seen)[j].chunkId
    decreases |hits|
  {
    if hits != [] {
      var first, rest := hits[0], hits[1..];
      var next := if first.chunkId in seen then seen else seen + {first.chunkId};
      UniqueHitsAreFirst(rest, next);
      forall h ensures h in UniqueFrom(hits, seen) <==> exists i :: IsFirst(hits, seen, i, h) {
        FirstOfRest(hits, seen, h);
      }
      forall h | h in UniqueFrom(rest, next) ensures h.chunkId !in next {
        var i :| IsFirst(rest, next, i, h);
      }
      assert first.chunkId !in seen ==> UniqueFrom(hits, seen) == [first] + UniqueFrom(rest, next);
    }
  }

  lemma FirstOfRest(hits: seq<Hit>, seen: set<string>, h: Hit)
    requires hits != []
    ensures var next := if hits[0].chunkId in seen then seen else seen + {hits[0].chunkId};
      (exists i :: IsFirst(hits, seen, i, h)) <==>
        (h == hits[0] && hits[0].chunkId !in seen) || exists i :: IsFirst(hits[1..], next, i, h)
  {
    var next := if hits[0].chunkId in seen then seen else seen + {hits[0].chunkId};
    if i :| IsFirst(hits, seen, i, h) {
      if i > 0 {
        assert forall j | 0 <= j < i - 1 :: hits[1..][j] == hits[j + 1];
        assert IsFirst(hits[1..], next, i - 1, h);
      }
    }
    if i :| IsFirst(hits[1..], next, i, h) {
      assert forall j | 0 < j < i + 1 :: hits[j] == hits[1..][j - 1];
      assert IsFirst(hits, seen, i + 1, h);
    }
    if h == hits[0] && hits[0].chunkId !in seen {
      assert IsFirst(hits, seen, 0, h);
    }
  }

  // ---------------------------------------------------------------- where more evidence does hurt

  /** The new hits that meet the constraints have the exact values, the answer shape and a chunk that contributes. */
  predicate CarriedBy(gate: Gate, aspect: string, more: seq<Hit>) {
    var rules, judged := gate.rules, ConstraintHits(gate.rules, aspect, more);
    && ValuesFound(rules, aspect, Combined(rules, judged))
    && ShapeSupported(rules, aspect, Combined(rules, judged))
    && SupportingIds(gate, rules.terms(aspect), judged) != []
  }

  /**
   When hits arrive that meet both constraints where none did before, an aspect that was supported
   stays so exactly when those hits alone carry it.
   */
  lemma FallbackGivenUpExactly(gate: Gate, aspect: string, hits: seq<Hit>, more: seq<Hit>)
    requires gate.rules.Valid() && hits != []
    requires AssessAspect(gate, aspect, hits).supported
    requires !KeepsJudged(gate.rules, aspect, hits, more)
    ensures AssessAspect(gate, aspect, hits + more).supported <==> CarriedBy(gate, aspect, more)
  {
    hide Combined, Coverage, SupportingIds, RelationHits, ScopeHits, RelationRequired, Contributes,
      ShapeSupported, ValuesFound, StrongMatches, Rules.Valid, ConstraintHits, Meeting;
    var rules := gate.rules;
    ConstraintHitsAreMeeting(rules, aspect, hits);
    ConstraintHitsAreMeeting(rules, aspect, more);
    ConstraintHitsAreMeeting(rules, aspect, hits + more);
    MeetingAppend(rules, aspect, hits, more);
    FilteredStays(rules, aspect, hits, more);
    CombinedLengthens(rules, hits, more);
    CoverageGrows(rules, aspect, Combined(rules, hits), Combined(rules, hits + more));
    assert [] + Meeting(rules, aspect, more) == Meeting(rules, aspect, more);
    assert JudgedHits(rules, aspect, hits + more) == ConstraintHits(rules, aspect, more) != [];
    CombinedNotEmpty(rules, ConstraintHits(rules, aspect, more));
  }

  /**
   Whether or not an aspect stays supported, its confidence does not fall: it is the coverage of its
   terms by all the hits.
   */
  lemma ConfidenceNeverFalls(gate: Gate, aspect: string, hits: seq<Hit>, more: seq<Hit>)
    requires gate.rules.Valid() && hits != []
    ensures AssessAspect(gate, aspect, hits).confidence <= AssessAspect(gate, aspect, hits + more).confidence
  {
    hide Combined, Coverage, SupportingIds, RelationHits, ScopeHits, RelationRequired, Contributes,
      ShapeSupported, ValuesFound, StrongMatches, Rules.Valid, JudgedHits;
    CombinedLengthens(gate.rules, hits, more);
    CoverageGrows(gate.rules, aspect, Combined(gate.rules, hits), Combined(gate.rules, hits + more));
  }

  lemma {:induction false} LeastGrows(before: seq<Assessment>, after: seq<Assessment>)
    requires before != [] && |before| == |after|
    requires forall i | 0 <= i < |before| :: before[i].confidence <= after[i].confidence
    ensures LeastConfidence(before) <= LeastConfidence(after)
  {
    if |before| > 1 {
      LeastGrows(before[1..], after[1..]);
    }
  }

  /** The hits of a query after some are appended: the unique ones before, and the new ones of new chunks. */
  lemma UniqueGrow(hits: seq<Hit>, extra: seq<Hit>)
    ensures UniqueFrom(hits + extra, {}) == UniqueFrom(hits, {}) + UniqueFrom(extra, ChunkIds(hits))
  {
    UniqueAppend(hits, extra, {});
    assert {} + ChunkIds(hits) == ChunkIds(hits);
  }

  /**
   When more evidence does not hurt: sufficient hits stay sufficient with others appended exactly
   when each aspect either keeps the hits it is judged by or is carried by the new ones. The
   confidence never falls.
   */
  lemma StaysSufficientExactly(gate: Gate, query: string, hits: seq<Hit>, extra: seq<Hit>)
    requires gate.rules.Valid() && Assess(gate, query, hits).sufficient
    ensures var unique, more := UniqueFrom(hits, {}), UniqueFrom(extra, ChunkIds(hits));
      Assess(gate, query, hits + extra).sufficient <==>
        forall a | a in gate.rules.aspects(query) ::
          KeepsJudged(gate.rules, a, unique, more) || CarriedBy(gate, a, more)
    ensures Assess(gate, query, hits).confidence <= Assess(gate, query, hits + extra).confidence
  {
    hide AssessAspect, UniqueFrom, LeastConfidence, Unique, SupportedIds, Unsupported, KeepsJudged, CarriedBy,
      Rules.Valid, AspectMet;
    var aspects := gate.rules.aspects(query);
    var unique, more := UniqueFrom(hits, {}), UniqueFrom(extra, ChunkIds(hits));
    SufficientMeans(gate, query, hits);
    UniqueGrow(hits, extra);
    var before, after := AssessAll(gate, aspects, unique), AssessAll(gate, aspects, unique + more);
    forall i | 0 <= i < |aspects|
      ensures before[i].confidence <= after[i].confidence
      ensures after[i].supported <==>
        KeepsJudged(gate.rules, aspects[i], unique, more) || CarriedBy(gate, aspects[i], more)
    {
      assert before[i].supported;
      ConfidenceNeverFalls(gate, aspects[i], unique, more);
      if KeepsJudged(gate.rules, aspects[i], unique, more) {
        AspectNeverHurt(gate, aspects[i], unique, more);
      } else {
        FallbackGivenUpExactly(gate, aspects[i], unique, more);
      }
    }
    LeastGrows(before, after);
    UnsupportedEmpty(after);
    if AllSupported(after) {
      SupportedHasIds(gate, aspects[0], unique + more);
      SomeIdNamed(after);
    }
    assert AllSupported(after) <==> forall a | a in aspects ::
      KeepsJudged(gate.rules, a, unique, more) || CarriedBy(gate, a, more);
  }

  lemma SomeIdNamed(items: seq<Assessment>)
    requires items != [] && items[0].supported && items[0].chunkIds != []
    ensures Unique(SupportedIds(items)) != []
  {
    hide Unique, SupportedIds;
    UniqueIsDistinct(SupportedIds(items));
    SupportedMembers(items);
    assert items[0].chunkIds[0] in SupportedIds(items);
  }

  /** The chunk supports an aspect that keeps the hits it is judged by. */
  ghost predicate KeptBy(gate: Gate, aspects: seq<string>, hits: seq<Hit>, more: seq<Hit>, id: string) {
    exists a :: a in aspects && KeepsJudged(gate.rules, a, hits, more) && id in AssessAspect(gate, a, hits).chunkIds
  }

  /**
   New chunks replace no old one, so an old chunk supports an aspect afterwards exactly when it did and
   the aspect keeps its hits.
   */
  lemma OldChunkExactly(gate: Gate, aspect: string, hits: seq<Hit>, more: seq<Hit>, id: string)
    requires gate.rules.Valid() && hits != []
    requires AssessAspect(gate, aspect, hits).supported && AssessAspect(gate, aspect, hits + more).supported
    requires id in ChunkIds(hits) && forall h | h in more :: h.chunkId !in ChunkIds(hits)
    ensures id in AssessAspect(gate, aspect, hits + more).chunkIds <==>
      KeepsJudged(gate.rules, aspect, hits, more) && id in AssessAspect(gate, aspect, hits).chunkIds
  {
    hide AssessAspect, Contributes, Meets, ConstraintHits, Rules.Valid, AspectMet;
    AspectSupportedExactly(gate, aspect, hits);
    AspectSupportedExactly(gate, aspect, hits + more);
    KeepsJudgedMeans(gate.rules, aspect, hits, more);
    if h :| IsSupporting(gate, aspect, hits + more, h) && h.chunkId == id {
      assert h in hits;
      assert KeepsJudged(gate.rules, aspect, hits, more) && IsSupporting(gate, aspect, hits, h);
    }
    if KeepsJudged(gate.rules, aspect, hits, more) {
      if h :| IsSupporting(gate, aspect, hits, h) && h.chunkId == id {
        assert IsSupporting(gate, aspect, hits + more, h);
      }
    }
  }

  lemma KeepsJudgedMeans(rules: Rules, aspect: string, hits: seq<Hit>, more: seq<Hit>)
    ensures KeepsJudged(rules, aspect, hits, more) <==>
      SomeMeets(rules, aspect, hits) || !SomeMeets(rules, aspect, hits + more)
  {
    hide RelationRequired, RelationHolds, ScopeHolds, ConstraintHits, Meeting, Meets;
    MeetsBoth(rules, aspect);
    ConstraintHitsAreMeeting(rules, aspect, hits);
    ConstraintHitsAreMeeting(rules, aspect, hits + more);
    MeetingMembers(rules, aspect, hits);
    MeetingMembers(rules, aspect, hits + more);
    HasMember(Meeting(rules, aspect, hits));
    HasMember(Meeting(rules, aspect, hits + more));
    if h :| h in hits && Meets(rules, aspect, h) { assert h in Meeting(rules, aspect, hits); }
    if h :| h in hits + more && Meets(rules, aspect, h) { assert h in Meeting(rules, aspect, hits + more); }
  }

  lemma NewChunksAreNew(hits: seq<Hit>, extra: seq<Hit>)
    ensures forall h | h in UniqueFrom(extra, ChunkIds(hits)) :: h.chunkId !in ChunkIds(UniqueFrom(hits, {}))
  {
    hide ChunkIds, UniqueFrom;
    UniqueHitsAreFirst(hits, {});
    UniqueHitsAreFirst(extra, ChunkIds(hits));
    forall h | h in UniqueFrom(extra, ChunkIds(hits)) ensures h.chunkId !in ChunkIds(UniqueFrom(hits, {})) {
      var i :| IsFirst(extra, ChunkIds(hits), i, h);
      UniqueIdsAreIds(hits);
    }
  }

  lemma UniqueIdsAreIds(hits: seq<Hit>)
    ensures ChunkIds(UniqueFrom(hits, {})) <= ChunkIds(hits)
  {
    hide UniqueFrom;
    UniqueHitsAreFirst(hits, {});
    forall h | h in UniqueFrom(hits, {}) ensures h.chunkId in ChunkIds(hits) {
      var i :| IsFirst(hits, {}, i, h);
      assert hits[i] in hits;
    }
  }

  lemma SupportersAreHits(gate: Gate, aspect: string, hits: seq<Hit>)
    requires gate.rules.Valid() && hits != [] && AssessAspect(gate, aspect, hits).supported
    ensures forall id | id in AssessAspect(gate, aspect, hits).chunkIds :: id in ChunkIds(hits)
  {
    hide AssessAspect, Contributes, Meets, Rules.Valid, AspectMet;
    AspectSupportedExactly(gate, aspect, hits);
  }

  lemma NamedByAspects(gate: Gate, aspects: seq<string>, hits: seq<Hit>, id: string)
    requires AllSupported(AssessAll(gate, aspects, hits))
    ensures id in Unique(SupportedIds(AssessAll(gate, aspects, hits))) <==>
      exists a :: a in aspects && id in AssessAspect(gate, a, hits).chunkIds
  {
    hide AssessAspect, Unique, SupportedIds;
    var items := AssessAll(gate, aspects, hits);
    UniqueIsDistinct(SupportedIds(items));
    SupportedMembers(items);
    if a :| a in aspects && id in AssessAspect(gate, a, hits).chunkIds {
      var i :| 0 <= i < |aspects| && aspects[i] == a;
      assert items[i].supported && id in items[i].chunkIds;
    }
  }

  /**
   In full: appending hits leaves the verdict no worse - still sufficient, no less confident, with
   every chunk that was supporting - exactly when each aspect keeps its hits or is carried by the new
   ones, and every supporting chunk supports some aspect that keeps its hits.
   */
  lemma NotWorseExactly(gate: Gate, query: string, hits: seq<Hit>, extra: seq<Hit>)
    requires gate.rules.Valid() && Assess(gate, query, hits).sufficient
    ensures var unique, more := UniqueFrom(hits, {}), UniqueFrom(extra, ChunkIds(hits));
      var aspects := gate.rules.aspects(query);
      NotWorse(Assess(gate, query, hits), Assess(gate, query, hits + extra)) <==>
        && (forall a | a in aspects :: KeepsJudged(gate.rules, a, unique, more) || CarriedBy(gate, a, more))
        && (forall id | id in Assess(gate, query, hits).chunkIds :: KeptBy(gate, aspects, unique, more, id))
  {
    hide AssessAspect, UniqueFrom, LeastConfidence, Unique, SupportedIds, Unsupported, KeepsJudged, CarriedBy, ChunkIds,
      Rules.Valid, AspectMet;
    var aspects := gate.rules.aspects(query);
    var unique, more := UniqueFrom(hits, {}), UniqueFrom(extra, ChunkIds(hits));
    var before, after := Assess(gate, query, hits), Assess(gate, query, hits + extra);
    StaysSufficientExactly(gate, query, hits, extra);
    SufficientMeans(gate, query, hits);
    if after.sufficient {
      UniqueGrow(hits, extra);
      NewChunksAreNew(hits, extra);
      SufficientMeans(gate, query, hits + extra);
      forall id | id in before.chunkIds ensures id in after.chunkIds <==> KeptBy(gate, aspects, unique, more, id) {
        OldIdKept(gate, aspects, unique, more, id);
      }
    }
  }

  lemma OldIdKept(gate: Gate, aspects: seq<string>, hits: seq<Hit>, more: seq<Hit>, id: string)
    requires gate.rules.Valid() && hits != []
    requires AllSupported(AssessAll(gate, aspects, hits)) && AllSupported(AssessAll(gate, aspects, hits + more))
    requires forall h | h in more :: h.chunkId !in ChunkIds(hits)
    requires id in Unique(SupportedIds(AssessAll(gate, aspects, hits)))
    ensures id in Unique(SupportedIds(AssessAll(gate, aspects, hits + more))) <==> KeptBy(gate, aspects, hits, more, id)
  {
    hide AssessAspect, Unique, SupportedIds, KeepsJudged, ChunkIds, Rules.Valid;
    NamedByAspects(gate, aspects, hits, id);
    NamedByAspects(gate, aspects, hits + more, id);
    var b :| b in aspects && id in AssessAspect(gate, b, hits).chunkIds;
    EachSupported(gate, aspects, hits);
    EachSupported(gate, aspects, hits + more);
    SupportersAreHits(gate, b, hits);
    forall a | a in aspects
      ensures id in AssessAspect(gate, a, hits + more).chunkIds <==>
        KeepsJudged(gate.rules, a, hits, more) && id in AssessAspect(gate, a, hits).chunkIds
    {
      OldChunkExactly(gate, a, hits, more, id);
    }
  }

  lemma EachSupported(gate: Gate, aspects: seq<string>, hits: seq<Hit>)
    requires AllSupported(AssessAll(gate, aspects, hits))
    ensures forall a | a in aspects :: AssessAspect(gate, a, hits).supported
  {
    hide AssessAspect;
    var items := AssessAll(gate, aspects, hits);
    forall i | 0 <= i < |aspects| ensures AssessAspect(gate, aspects[i], hits).supported {
      assert items[i].supported;
    }
  }

  /** A query with a relation (`r`), a scope target (`s`), an exact value (`v`) and one term (`a`). */
  function SampleRules(): Rules {
    Rules(
      s => s, q => [q], q => [Term("a", 1.0)], t => true, q => false,
      (q, t) => 'r' in t, q => true, (q, t) => 's' in t, q => ["v"], s => s, [])
  }

  function SampleHit(id: string, title: string): Hit {
    Hit(id, title, "", [])
  }

  lemma SampleRulesValid()
    ensures SampleRules().Valid()
  {
    hide Contains;
    forall s, t, v | Contains(s, v) ensures Contains(s + "\n" + t, v) {
      ContainsInPrefix(s, "\n" + t, v);
      assert s + ("\n" + t) == s + "\n" + t;
    }
  }

  lemma ContainsChar(text: string, c: char)
    ensures Contains(text, [c]) <==> c in text
  {
    hide Contains;
    ContainsMatch(text, [c]);
    if i :| 0 <= i < |text| && text[i] == c {
      assert text[i..i + |[c]|] == [c];
      assert MatchAt(text, [c], i);
    }
    if i :| MatchAt(text, [c], i) {
      assert text[i..i + |[c]|][0] == text[i];
    }
  }

  lemma SampleSearchable(id: string, title: string)
    ensures Searchable(SampleHit(id, title)) == title + "\n"
    ensures Combined(SampleRules(), [SampleHit(id, title)]) == title + "\n"
  {
    var hit := SampleHit(id, title);
    var lines := [hit.title, hit.content] + hit.metadata;
    assert lines == [title, ""] && lines[1..] == [""];
    assert Text.Join("\n", lines) == title + "\n" + "" == title + "\n";
    assert SearchableTexts([hit]) == [Searchable(hit)];
  }

  /**
   The side condition is needed: two hits, one with the relation and one with the scope target,
   are sufficient together; a third that has both but lacks the exact value makes them rejected.
   The rules are stand-ins for the patterns, one letter for each.
   */
  lemma MoreEvidenceCanHurt() returns (gate: Gate, hits: seq<Hit>, extra: seq<Hit>)
    ensures gate.rules.Valid()
    ensures Assess(gate, "q", hits).sufficient && !Assess(gate, "q", hits + extra).sufficient
  {
    hide Contains, Searchable, AssessAspect, UniqueFrom, Rules.Valid, Combined;
    gate := Gate(SampleRules(), 0.45, 0.08);
    var relation, scope, both := SampleHit("1", "arv"), SampleHit("2", "as"), SampleHit("3", "ars");
    hits, extra := [relation, scope], [both];
    SampleRulesValid();
    SampleSearchable("1", "arv");
    SampleSearchable("2", "as");
    SampleSearchable("3", "ars");
    SampleAccepted(gate, relation, scope);
    SampleRejected(gate, relation, scope, both);
    SampleUnique(relation, scope, both);
    SupportedHasIds(gate, "q", hits);
    UniqueIsDistinct(AssessAspect(gate, "q", hits).chunkIds);
    assert AssessAspect(gate, "q", hits).chunkIds[0] in Unique(AssessAspect(gate, "q", hits).chunkIds);
    assert hits + extra == [relation, scope, both];
    assert gate.rules.aspects("q") == ["q"];
    var items := AssessAll(gate, ["q"], hits);
    UnsupportedEmpty(items);
    assert items[1..] == [];
    assert SupportedIds(items) == items[0].chunkIds + SupportedIds(items[1..]) == items[0].chunkIds;
    assert AssessAll(gate, ["q"], hits) == [AssessAspect(gate, "q", hits)];
    assert AssessAll(gate, ["q"], hits + extra) == [AssessAspect(gate, "q", hits + extra)];
  }

  lemma SampleMatches(text: string)
    requires 'a' in text
    ensures var rules := SampleRules();
      && Coverage(rules.terms("q"), text) == 1.0
      && MatchedWeight(rules.terms("q"), text) == 1.0 == TotalWeight(rules.terms("q"))
      && StrongMatches(rules, rules.terms("q"), text) == 1
  {
    hide Contains;
    ContainsChar(text, 'a');
    var terms := SampleRules().terms("q");
    assert terms == [Term("a", 1.0)] && terms[1..] == [];
    assert TotalWeight(terms) == 1.0 && MatchedWeight(terms, text) == 1.0;
    assert Coverage(terms, text) == 1.0 / 1.0;
  }

  lemma SampleMeeting(hits: seq<Hit>)
    ensures ConstraintHits(SampleRules(), "q", hits) == Meeting(SampleRules(), "q", hits)
    ensures forall h :: h in Meeting(SampleRules(), "q", hits) <==>
      h in hits && 'r' in Searchable(h) && 's' in Searchable(h)
    ensures (exists h :: h in hits && 'r' in Searchable(h)) ==> RelationHits(SampleRules(), "q", hits) != []
    ensures (exists h :: h in hits && 's' in Searchable(h)) ==> ScopeHits(SampleRules(), "q", hits) != []
  {
    hide Searchable, Meeting, RelationHits, ScopeHits, ConstraintHits;
    ConstraintHitsAreMeeting(SampleRules(), "q", hits);
    MeetingMembers(SampleRules(), "q", hits);
    FilteredMembers(SampleRules(), "q", hits);
    if h :| h in hits && 'r' in Searchable(h) { assert h in RelationHits(SampleRules(), "q", hits); }
    if h :| h in hits && 's' in Searchable(h) { assert h in ScopeHits(SampleRules(), "q", hits); }
  }

  lemma SampleAccepted(gate: Gate, relation: Hit, scope: Hit)
    requires gate == Gate(SampleRules(), 0.45, 0.08)
    requires Searchable(relation) == "arv\n" && Searchable(scope) == "as\n"
    ensures AssessAspect(gate, "q", [relation, scope]).supported
  {
    hide Searchable, Meeting, RelationHits, ScopeHits, ConstraintHits, Contains, Coverage, MatchedWeight,
      StrongMatches, TotalWeight;
    var hits := [relation, scope];
    SampleMeeting(hits);
    assert relation in hits && scope in hits && 'r' in "arv\n" && 's' in "as\n";
    assert ConstraintHits(SampleRules(), "q", hits) == [] by {
      assert forall h | h in hits :: h == relation || h == scope;
      assert 's' !in "arv\n" && 'r' !in "as\n";
      forall h ensures h !in Meeting(SampleRules(), "q", hits) {
        assert h in hits ==> h == relation || h == scope;
        assert !('r' in Searchable(relation) && 's' in Searchable(relation));
        assert !('r' in Searchable(scope) && 's' in Searchable(scope));
      }
      HasMember(Meeting(SampleRules(), "q", hits));
    }
    assert hits[1..] == [scope] && SearchableTexts([scope]) == ["as\n"];
    assert SearchableTexts(hits) == ["arv\n"] + ["as\n"] == ["arv\n", "as\n"];
    assert ["arv\n", "as\n"][1..] == ["as\n"];
    var text := "arv\n" + "\n" + "as\n";
    assert Combined(SampleRules(), hits) == text;
    assert 'a' in text && 'v' in text by { assert text[0] == 'a' && text[2] == 'v'; }
    SampleMatches(text);
    ContainsChar(text, 'v');
    SampleMatches("arv\n");
    assert Contributes(gate, SampleRules().terms("q"), relation);
    assert SupportingIds(gate, SampleRules().terms("q"), hits)[0] == relation.chunkId;
  }

  lemma SampleRejected(gate: Gate, relation: Hit, scope: Hit, both: Hit)
    requires gate == Gate(SampleRules(), 0.45, 0.08)
    requires Searchable(relation) == "arv\n" && Searchable(scope) == "as\n" && Searchable(both) == "ars\n"
    ensures !AssessAspect(gate, "q", [relation, scope, both]).supported
  {
    hide Searchable, RelationHits, ScopeHits, ConstraintHits, Contains, Coverage, MatchedWeight,
      StrongMatches, TotalWeight, Meeting, SearchableTexts;
    var hits := [relation, scope, both];
    SampleMeeting(hits);
    OnlyBothMeets(relation, scope, both);
    OneSearchable(both);
    ContainsChar("ars\n", 'v');
    assert SampleRules().exactValues("q")[0] == "v" == ['v'];
    assert !ValuesFound(SampleRules(), "q", "ars\n");
  }

  lemma OneSearchable(hit: Hit)
    ensures Combined(SampleRules(), [hit]) == Searchable(hit)
  {
    hide Searchable;
    assert [hit][1..] == [] && SearchableTexts([hit]) == [Searchable(hit)];
  }

  lemma OnlyBothMeets(relation: Hit, scope: Hit, both: Hit)
    requires Searchable(relation) == "arv\n" && Searchable(scope) == "as\n" && Searchable(both) == "ars\n"
    ensures Meeting(SampleRules(), "q", [relation, scope, both]) == [both]
  {
    hide Searchable;
    var hits := [relation, scope, both];
    assert hits[1..] == [scope, both] && [scope, both][1..] == [both] && [both][1..] == [];
    assert Meeting(SampleRules(), "q", [both]) == [both];
    assert Meeting(SampleRules(), "q", [scope, both]) == [both];
  }

  lemma SampleUnique(a: Hit, b: Hit, c: Hit)
    requires a.chunkId == "1" && b.chunkId == "2" && c.chunkId == "3"
    ensures UniqueFrom([a, b], {}) == [a, b]
    ensures UniqueFrom([a, b, c], {}) == [a, b, c]
  {
    assert [a, b][1..] == [b] && [a, b, c][1..] == [b, c] && [b, c][1..] == [c];
    assert UniqueFrom([c], {"1", "2"}) == [c];
    assert {"1"} + {"2"} == {"1", "2"} && {} + {"1"} == {"1"};
    assert UniqueFrom([b, c], {"1"}) == [b, c];
    assert UniqueFrom([b], {"1"}) == [b];
  }
}
