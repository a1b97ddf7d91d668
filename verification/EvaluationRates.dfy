/**
 What each rate of an evaluation run says (`backend/app/evaluation/metrics.py`): the mean of a share
 over the questions it is about, and 1 exactly when each of those questions is fully met, put in
 terms of the fields of the questions.
 */
module EvaluationRates {
  import opened RankingMetrics
  import opened Sequences
  import opened Wrappers

  // ---------------------------------------------------------------- sums over questions

  /** The questions that are kept, in order. */
  function Chosen(samples: seq<Sample>, keep: Sample -> bool): seq<Sample> {
    if samples == [] then []
    else (if keep(samples[0]) then [samples[0]] else []) + Chosen(samples[1..], keep)
  }

  function Sum(samples: seq<Sample>, value: Sample -> real): real {
    if samples == [] then 0.0 else value(samples[0]) + Sum(samples[1..], value)
  }

  /** The rate is the mean of a value over the questions kept, and 0 without any. */
  predicate IsMean(rate: real, samples: seq<Sample>, keep: Sample -> bool, value: Sample -> real) {
    var chosen := Chosen(samples, keep);
    rate * |chosen| as real == Sum(chosen, value) && (chosen == [] ==> rate == 0.0)
  }

  /** Some question is kept, and each that is kept is good. */
  ghost predicate AllGood(samples: seq<Sample>, keep: Sample -> bool, good: Sample -> bool) {
    && (exists s :: s in samples && keep(s))
    && (forall s | s in samples && keep(s) :: good(s))
  }

  lemma {:induction false} CountIsChosen(samples: seq<Sample>, kind: Kind, keep: Sample -> bool)
    requires forall s | s in samples :: Is(s, kind) == keep(s)
    ensures Count(samples, kind) == |Chosen(samples, keep)|
  {
    hide Is;
    if samples != [] {
      assert samples[0] in samples;
      CountIsChosen(samples[1..], kind, keep);
    }
  }

  lemma {:induction false} TotalIsSum(
    discount: nat -> real, samples: seq<Sample>, kind: Kind, field: Field, keep: Sample -> bool, value: Sample -> real)
    requires forall s | s in samples :: Is(s, kind) == keep(s)
    requires forall s | s in samples && keep(s) :: Get(EvaluateSample(discount, s), field) == value(s)
    ensures Total(discount, samples, kind, field) == Sum(Chosen(samples, keep), value)
  {
    hide Is, Get, EvaluateSample;
    if samples != [] {
      assert samples[0] in samples;
      var rest := Chosen(samples[1..], keep);
      assert ([samples[0]] + rest)[1..] == rest && [] + rest == rest;
      TotalIsSum(discount, samples[1..], kind, field, keep, value);
    }
  }

  lemma MeanIsSum(
    discount: nat -> real, samples: seq<Sample>, kind: Kind, field: Field, keep: Sample -> bool, value: Sample -> real)
    requires forall s | s in samples :: Is(s, kind) == keep(s)
    requires forall s | s in samples && keep(s) :: Get(EvaluateSample(discount, s), field) == value(s)
    ensures IsMean(Mean(discount, samples, kind, field), samples, keep, value)
  {
    hide Is, Get, EvaluateSample, Total, Count, Chosen, Sum;
    CountIsChosen(samples, kind, keep);
    TotalIsSum(discount, samples, kind, field, keep, value);
    NoneChosen(value);
    if Count(samples, kind) > 0 {
      QuotientTimes(Total(discount, samples, kind, field), Count(samples, kind) as real);
    }
  }

  lemma NoneChosen(value: Sample -> real)
    ensures Sum([], value) == 0.0
  {
  }

  lemma QuotientTimes(a: real, b: real)
    requires b > 0.0
    ensures (a / b) * b == a
  {
  }

  lemma {:induction false} CountPositive(samples: seq<Sample>, kind: Kind)
    ensures Count(samples, kind) > 0 <==> exists s :: s in samples && Is(s, kind)
  {
    hide Is;
    if samples != [] {
      CountPositive(samples[1..], kind);
      assert samples == [samples[0]] + samples[1..];
    }
  }

  lemma {:induction false} TotalFull(discount: nat -> real, samples: seq<Sample>, kind: Kind, field: Field)
    requires forall s | s in samples :: AllUnit(EvaluateSample(discount, s))
    ensures Total(discount, samples, kind, field) == Count(samples, kind) as real <==>
      AllOne(discount, samples, kind, field)
  {
    hide Is, Get, EvaluateSample, AllUnit, AllOne;
    AllOneStep(discount, samples, kind, field);
    if samples != [] {
      assert samples[0] in samples;
      FieldIsUnit(EvaluateSample(discount, samples[0]), field);
      TotalBounds(discount, samples[1..], kind, field);
      TotalFull(discount, samples[1..], kind, field);
    }
  }

  ghost predicate AllOne(discount: nat -> real, samples: seq<Sample>, kind: Kind, field: Field) {
    forall s | s in samples && Is(s, kind) :: Get(EvaluateSample(discount, s), field) == 1.0
  }

  lemma AllOneStep(discount: nat -> real, samples: seq<Sample>, kind: Kind, field: Field)
    ensures AllOne(discount, samples, kind, field) <==>
      samples == []
      || (&& (Is(samples[0], kind) ==> Get(EvaluateSample(discount, samples[0]), field) == 1.0)
          && AllOne(discount, samples[1..], kind, field))
  {
    hide Is, Get, EvaluateSample;
    if samples != [] { assert samples == [samples[0]] + samples[1..]; }
  }

  lemma MeanIsOne(
    discount: nat -> real, samples: seq<Sample>, kind: Kind, field: Field, keep: Sample -> bool, good: Sample -> bool)
    requires forall s | s in samples :: AllUnit(EvaluateSample(discount, s))
    requires forall s | s in samples :: Is(s, kind) == keep(s)
    requires forall s | s in samples && keep(s) :: Get(EvaluateSample(discount, s), field) == 1.0 <==> good(s)
    ensures Mean(discount, samples, kind, field) == 1.0 <==> AllGood(samples, keep, good)
  {
    hide Is, Get, EvaluateSample, AllUnit, Total, Count, AllOne, AllGood;
    GoodAreOne(discount, samples, kind, field, keep, good);
    TotalFull(discount, samples, kind, field);
    TotalBounds(discount, samples, kind, field);
    var n, total := Count(samples, kind), Total(discount, samples, kind, field);
    if n > 0 { Quotients(total, n as real); }
  }

  lemma GoodAreOne(
    discount: nat -> real, samples: seq<Sample>, kind: Kind, field: Field, keep: Sample -> bool, good: Sample -> bool)
    requires forall s | s in samples :: Is(s, kind) == keep(s)
    requires forall s | s in samples && keep(s) :: Get(EvaluateSample(discount, s), field) == 1.0 <==> good(s)
    ensures AllGood(samples, keep, good) <==> Count(samples, kind) > 0 && AllOne(discount, samples, kind, field)
  {
    hide Is, Get, EvaluateSample, Count;
    CountPositive(samples, kind);
  }

  // ---------------------------------------------------------------- what makes a question fully met

  predicate Scores(s: Sample) {
    !s.evaluationFailed
  }

  predicate Answers(s: Sample) {
    !s.evaluationFailed && !s.refused
  }

  /** The question was answered or should have been. */
  predicate Cites(s: Sample) {
    !s.evaluationFailed && (!s.refused || !s.shouldRefuse)
  }

  /** Every relevant item is among the first k results: chunks, or documents when no chunk is known as relevant. */
  predicate FindsAll(s: Sample, k: nat) {
    if s.relevantIds != {} then s.relevantIds <= SetOf(Take(s.retrievedIds, k))
    else s.relevantDocumentIds <= SetOf(Take(s.retrievedDocumentIds, k))
  }

  predicate StartsWell(retrieved: seq<string>, relevant: set<string>) {
    relevant == {} || (retrieved != [] && retrieved[0] in relevant)
  }

  predicate FindsAtOnce(s: Sample) {
    if s.relevantIds != {} then StartsWell(s.retrievedIds, s.relevantIds)
    else StartsWell(s.retrievedDocumentIds, s.relevantDocumentIds)
  }

  predicate RanksIdeally(s: Sample, k: nat) {
    if s.relevantIds != {} then LeadsWith(Unique(s.retrievedIds), s.relevantIds, Min(k, |s.relevantIds|))
    else LeadsWith(Unique(s.retrievedDocumentIds), s.relevantDocumentIds, Min(k, |s.relevantDocumentIds|))
  }

  ghost predicate FindsOne(retrieved: seq<string>, relevant: set<string>) {
    relevant == {} || exists v :: v in retrieved && v in relevant
  }

  predicate OnlyExpected(cited: set<string>, expected: set<string>) {
    cited != {} && cited <= expected
  }

  predicate AllExpected(cited: set<string>, expected: set<string>) {
    expected != {} && expected <= cited
  }

  /**
   Something is cited and all of it is expected. Relevant documents stand in for the expected
   citations of a question that is to be answered and names none.
   */
  predicate CitesOnlyExpected(s: Sample) {
    if s.expectedCitationIds == {} && !s.shouldRefuse && s.relevantDocumentIds != {}
    then OnlyExpected(s.citedDocumentIds, s.relevantDocumentIds)
    else OnlyExpected(s.citedIds, s.expectedCitationIds)
  }

  predicate CitesAllExpected(s: Sample) {
    if s.expectedCitationIds == {} && !s.shouldRefuse && s.relevantDocumentIds != {}
    then AllExpected(s.citedDocumentIds, s.relevantDocumentIds)
    else AllExpected(s.citedIds, s.expectedCitationIds)
  }

  /** Validated as grounded, or not validated, with a citation and without a hallucinated claim. */
  predicate IsGrounded(s: Sample) {
    if s.groundingValidated.Some? then s.groundingValidated.value
    else
      && (s.claimCount > 0 ==> s.hallucinatedClaims == 0)
      && (if s.expectedCitationIds == {} && !s.shouldRefuse && s.relevantDocumentIds != {}
          then s.citedDocumentIds != {} else s.citedIds != {})
  }

  lemma SetSharesAreOne(actual: set<string>, expected: set<string>)
    ensures SetPrecision(actual, expected) == 1.0 <==> OnlyExpected(actual, expected)
    ensures CitationRecall(actual, expected) == 1.0 <==> AllExpected(actual, expected)
    ensures SetRecall(actual, expected) == 1.0 <==> expected <= actual
  {
    var both := actual * expected;
    SubsetSize(both, actual);
    SubsetSize(both, expected);
    assert both == actual <==> actual <= expected;
    assert both == expected <==> expected <= actual;
    if actual != {} { Quotients(|both| as real, |actual| as real); }
    if expected != {} { Quotients(|both| as real, |expected| as real); }
  }

  /** The reciprocal rank is 1 over the place of the first relevant item among the distinct ones. */
  lemma ReciprocalRankExactly(retrieved: seq<string>, relevant: set<string>, i: nat)
    requires i < |Unique(retrieved)| && Unique(retrieved)[i] in relevant
    requires forall j | 0 <= j < i :: Unique(retrieved)[j] !in relevant
    ensures ReciprocalRank(retrieved, relevant) * (i + 1) as real == 1.0
  {
    hide Unique, FirstRelevant;
    var unique := Unique(retrieved);
    FirstRelevantIs(unique, relevant);
    assert unique[i] in unique;
    var first := FirstRelevant(unique, relevant).value;
    assert first == i;
  }

  /** Without a relevant item among the results the reciprocal rank is 0, or 1 when there is none to find. */
  lemma ReciprocalRankNone(retrieved: seq<string>, relevant: set<string>)
    requires forall v | v in retrieved :: v !in relevant
    ensures ReciprocalRank(retrieved, relevant) == if relevant == {} then 1.0 else 0.0
  {
    hide Unique, FirstRelevant;
    UniqueIsDistinct(retrieved);
    FirstRelevantIs(Unique(retrieved), relevant);
  }

  lemma UniqueStarts(values: seq<string>)
    requires values != []
    ensures Unique(values) != [] && Unique(values)[0] == values[0]
  {
    hide Unique;
    UniquePrefix(values, 1);
    UniqueOne(values[0]);
    assert values[..1] == [values[0]];
  }

  lemma UniqueOne(value: string)
    ensures Unique([value]) == [value]
  {
    assert [value][..0] == [];
  }

  lemma ReciprocalRankIsOne(retrieved: seq<string>, relevant: set<string>)
    ensures ReciprocalRank(retrieved, relevant) == 1.0 <==> StartsWell(retrieved, relevant)
  {
    hide Unique, FirstRelevant;
    var unique := Unique(retrieved);
    UniqueIsDistinct(retrieved);
    FirstRelevantIs(unique, relevant);
    if retrieved != [] { UniqueStarts(retrieved); }
    var first := FirstRelevant(unique, relevant);
    if first.Some? {
      ReciprocalIsOne(first.value + 1);
      if StartsWell(retrieved, relevant) { assert first.value == 0; }
    } else {
      if retrieved != [] { assert unique[0] in unique; }
    }
  }

  lemma ReciprocalIsOne(n: nat)
    requires n > 0
    ensures 1.0 / n as real == 1.0 <==> n == 1
  {
    Reciprocals(1, n);
    Reciprocals(n, 1);
  }

  // ---------------------------------------------------------------- one question

  lemma RankingIsOne(discount: nat -> real, s: Sample)
    requires IsDiscount(discount)
    ensures var m := EvaluateSample(discount, s);
      && (m.recallAt1 == 1.0 <==> FindsAll(s, 1)) && (m.recallAt5 == 1.0 <==> FindsAll(s, 5))
      && (m.recallAt10 == 1.0 <==> FindsAll(s, 10))
      && (m.reciprocalRank == 1.0 <==> FindsAtOnce(s)) && (m.ndcgAt10 == 1.0 <==> RanksIdeally(s, 10))
  {
    hide IsDiscount, Recall, ReciprocalRank, Ndcg, SetRecall, SetPrecision, CitationRecall, Hit, AnswerGrounded, Unique,
      LeadsWith, Take, CitedItems, ExpectedCitations;
    RecallRange(Retrieved(s), RelevantItems(s), 1, 5);
    RecallRange(Retrieved(s), RelevantItems(s), 5, 10);
    RecallRange(Retrieved(s), RelevantItems(s), 1, 1);
    ReciprocalRankIsOne(Retrieved(s), RelevantItems(s));
    NdcgRange(discount, Retrieved(s), RelevantItems(s), 10);
  }

  lemma SharesAreOne(discount: nat -> real, s: Sample)
    ensures var m := EvaluateSample(discount, s);
      && (m.citationAccuracy == 1.0 <==> CitesOnlyExpected(s))
      && (m.citationCompleteness == 1.0 <==> CitesAllExpected(s))
      && (m.documentCitationAccuracy == 1.0 <==> OnlyExpected(s.citedDocumentIds, s.relevantDocumentIds))
      && (m.documentCitationCompleteness == 1.0 <==> AllExpected(s.citedDocumentIds, s.relevantDocumentIds))
      && (m.answerPointCoverage == 1.0 <==> s.expectedAnswerPoints <= s.coveredAnswerPoints)
  {
    hide Recall, ReciprocalRank, Ndcg, SetRecall, SetPrecision, CitationRecall, Hit, AnswerGrounded, Retrieved,
      RelevantItems, OnlyExpected, AllExpected;
    SetSharesAreOne(CitedItems(s), ExpectedCitations(s));
    SetSharesAreOne(s.citedDocumentIds, s.relevantDocumentIds);
    SetSharesAreOne(s.coveredAnswerPoints, s.expectedAnswerPoints);
  }

  lemma FlagsAreOne(discount: nat -> real, s: Sample)
    ensures var m := EvaluateSample(discount, s);
      && (m.documentHit == 1.0 <==> FindsOne(s.retrievedDocumentIds, s.relevantDocumentIds))
      && (m.chunkHit == 1.0 <==> FindsOne(s.retrievedIds, s.relevantIds))
      && (Answers(s) ==> (m.answerGrounded == 1.0 <==> IsGrounded(s)))
      && (Scores(s) ==> (m.refusalCorrect == 1.0 <==> s.refused == s.shouldRefuse))
      && (Scores(s) && s.shouldRefuse ==> (m.unsupportedAnswer == 1.0 <==> !s.refused))
  {
    hide Recall, ReciprocalRank, Ndcg, SetRecall, SetPrecision, CitationRecall, Retrieved, RelevantItems,
      ExpectedCitations;
  }

  // ---------------------------------------------------------------- the rates of a run

  ghost predicate Sound(discount: nat -> real, samples: seq<Sample>) {
    IsDiscount(discount) && forall s | s in samples :: ClaimsAddUp(s)
  }

  lemma AllUnits(discount: nat -> real, samples: seq<Sample>)
    requires Sound(discount, samples)
    ensures forall s | s in samples :: AllUnit(EvaluateSample(discount, s))
  {
    hide EvaluateSample, AllUnit, IsDiscount;
    forall s | s in samples ensures AllUnit(EvaluateSample(discount, s)) { SampleIsUnit(discount, s); }
  }

  /** The retrieval rates are 1 exactly when some question was scored and retrieval met each of them. */
  lemma RetrievalRatesExactly(discount: nat -> real, samples: seq<Sample>)
    requires Sound(discount, samples)
    ensures var a := EvaluateSamples(discount, samples);
      && (a.recallAt1 == 1.0 <==> AllGood(samples, Scores, s => FindsAll(s, 1)))
      && (a.recallAt5 == 1.0 <==> AllGood(samples, Scores, s => FindsAll(s, 5)))
      && (a.recallAt10 == 1.0 <==> AllGood(samples, Scores, s => FindsAll(s, 10)))
      && (a.mrr == 1.0 <==> AllGood(samples, Scores, FindsAtOnce))
      && (a.ndcgAt10 == 1.0 <==> AllGood(samples, Scores, s => RanksIdeally(s, 10)))
  {
    hide EvaluateSample, AllUnit, Mean, Ratio, Count, AllGood, FindsAll, FindsAtOnce, RanksIdeally, IsDiscount,
      HallucinatedClaims, AssessedClaims;
    AllUnits(discount, samples);
    forall s { RankingIsOne(discount, s); }
    MeanIsOne(discount, samples, Scored, RecallAt1, Scores, s => FindsAll(s, 1));
    MeanIsOne(discount, samples, Scored, RecallAt5, Scores, s => FindsAll(s, 5));
    MeanIsOne(discount, samples, Scored, RecallAt10, Scores, s => FindsAll(s, 10));
    MeanIsOne(discount, samples, Scored, ReciprocalRankOf, Scores, FindsAtOnce);
    MeanIsOne(discount, samples, Scored, NdcgAt10, Scores, s => RanksIdeally(s, 10));
  }

  /** The hit rates and the share of covered answer points likewise. */
  lemma CoverageRatesExactly(discount: nat -> real, samples: seq<Sample>)
    requires Sound(discount, samples)
    ensures var a := EvaluateSamples(discount, samples);
      && (a.documentHitRate == 1.0 <==>
            AllGood(samples, Scores, (s: Sample) => FindsOne(s.retrievedDocumentIds, s.relevantDocumentIds)))
      && (a.chunkHitRate == 1.0 <==> AllGood(samples, Scores, (s: Sample) => FindsOne(s.retrievedIds, s.relevantIds)))
      && (a.answerPointCoverage == 1.0 <==>
            AllGood(samples, Scores, (s: Sample) => s.expectedAnswerPoints <= s.coveredAnswerPoints))
  {
    hide EvaluateSample, AllUnit, Mean, Ratio, Count, AllGood, IsDiscount, HallucinatedClaims, AssessedClaims, FindsOne,
      IsGrounded, CitesOnlyExpected, CitesAllExpected, OnlyExpected, AllExpected;
    AllUnits(discount, samples);
    forall s { FlagsAreOne(discount, s); }
    forall s { SharesAreOne(discount, s); }
    MeanIsOne(discount, samples, Scored, DocumentHit, Scores,
      (s: Sample) => FindsOne(s.retrievedDocumentIds, s.relevantDocumentIds));
    MeanIsOne(discount, samples, Scored, ChunkHit, Scores, (s: Sample) => FindsOne(s.retrievedIds, s.relevantIds));
    MeanIsOne(discount, samples, Scored, AnswerPointCoverage, Scores,
      (s: Sample) => s.expectedAnswerPoints <= s.coveredAnswerPoints);
  }

  /**
   Citation precision is 1 exactly when there are questions to cite for and each of them cites something
   and only what is expected, citation recall exactly when each expects something and cites all of it.
   */
  lemma CitationRatesExactly(discount: nat -> real, samples: seq<Sample>)
    requires Sound(discount, samples)
    ensures var a := EvaluateSamples(discount, samples);
      && (a.citationPrecision == 1.0 <==> AllGood(samples, Cites, CitesOnlyExpected))
      && (a.citationRecall == 1.0 <==> AllGood(samples, Cites, CitesAllExpected))
      && (a.emittedCitationPrecision == 1.0 <==> AllGood(samples, Answers, CitesOnlyExpected))
      && (a.emittedCitationRecall == 1.0 <==> AllGood(samples, Answers, CitesAllExpected))
  {
    hide EvaluateSample, AllUnit, Mean, Ratio, Count, AllGood, IsDiscount, HallucinatedClaims, AssessedClaims,
      CitesOnlyExpected, CitesAllExpected, OnlyExpected, AllExpected;
    AllUnits(discount, samples);
    forall s { SharesAreOne(discount, s); }
    MeanIsOne(discount, samples, CitationCase, CitationAccuracy, Cites, CitesOnlyExpected);
    MeanIsOne(discount, samples, CitationCase, CitationCompleteness, Cites, CitesAllExpected);
    MeanIsOne(discount, samples, Answered, CitationAccuracy, Answers, CitesOnlyExpected);
    MeanIsOne(discount, samples, Answered, CitationCompleteness, Answers, CitesAllExpected);
  }

  /** The same of the documents cited. */
  lemma DocumentCitationRatesExactly(discount: nat -> real, samples: seq<Sample>)
    requires Sound(discount, samples)
    ensures var a := EvaluateSamples(discount, samples);
      var only, full := (s: Sample) => OnlyExpected(s.citedDocumentIds, s.relevantDocumentIds),
                        (s: Sample) => AllExpected(s.citedDocumentIds, s.relevantDocumentIds);
      && (a.documentCitationPrecision == 1.0 <==> AllGood(samples, Cites, only))
      && (a.documentCitationRecall == 1.0 <==> AllGood(samples, Cites, full))
      && (a.emittedDocumentCitationPrecision == 1.0 <==> AllGood(samples, Answers, only))
      && (a.emittedDocumentCitationRecall == 1.0 <==> AllGood(samples, Answers, full))
  {
    hide EvaluateSample, AllUnit, Mean, Ratio, Count, AllGood, IsDiscount, HallucinatedClaims, AssessedClaims,
      CitesOnlyExpected, CitesAllExpected, OnlyExpected, AllExpected;
    var only, full := (s: Sample) => OnlyExpected(s.citedDocumentIds, s.relevantDocumentIds),
                      (s: Sample) => AllExpected(s.citedDocumentIds, s.relevantDocumentIds);
    AllUnits(discount, samples);
    forall s { SharesAreOne(discount, s); }
    MeanIsOne(discount, samples, CitationCase, DocumentCitationAccuracy, Cites, only);
    MeanIsOne(discount, samples, CitationCase, DocumentCitationCompleteness, Cites, full);
    MeanIsOne(discount, samples, Answered, DocumentCitationAccuracy, Answers, only);
    MeanIsOne(discount, samples, Answered, DocumentCitationCompleteness, Answers, full);
  }

  /** And of answers and refusals: grounded, right to refuse or not, and answered though to be refused. */
  lemma AnswerRatesExactly(discount: nat -> real, samples: seq<Sample>)
    requires Sound(discount, samples)
    ensures var a := EvaluateSamples(discount, samples);
      && (a.answerGroundingRate == 1.0 <==> AllGood(samples, Answers, IsGrounded))
      && (a.refusalAccuracy == 1.0 <==> AllGood(samples, Scores, (s: Sample) => s.refused == s.shouldRefuse))
      && (a.unsupportedAnswerRate == 1.0 <==>
            AllGood(samples, (s: Sample) => Scores(s) && s.shouldRefuse, (s: Sample) => !s.refused))
  {
    hide EvaluateSample, AllUnit, Mean, Ratio, Count, AllGood, IsDiscount, HallucinatedClaims, AssessedClaims,
      IsGrounded, FindsOne;
    AllUnits(discount, samples);
    forall s { FlagsAreOne(discount, s); }
    MeanIsOne(discount, samples, Answered, Grounded, Answers, IsGrounded);
    MeanIsOne(discount, samples, Scored, RefusalCorrect, Scores, (s: Sample) => s.refused == s.shouldRefuse);
    MeanIsOne(discount, samples, RefusalCase, UnsupportedAnswer, (s: Sample) => Scores(s) && s.shouldRefuse,
      (s: Sample) => !s.refused);
  }

  // ---------------------------------------------------------------- rates of counts

  lemma {:induction false} CountAll(samples: seq<Sample>, part: Kind, whole: Kind)
    requires forall s | s in samples :: Is(s, part) ==> Is(s, whole)
    ensures Count(samples, part) <= Count(samples, whole)
    ensures Count(samples, part) == Count(samples, whole) <==> forall s | s in samples && Is(s, whole) :: Is(s, part)
  {
    hide Is;
    if samples != [] {
      assert samples == [samples[0]] + samples[1..];
      CountAll(samples[1..], part, whole);
    }
  }

  lemma ShareOfCounts(
    samples: seq<Sample>, part: Kind, whole: Kind, keep: Sample -> bool, good: Sample -> bool)
    requires forall s | s in samples :: Is(s, whole) == keep(s) && Is(s, part) == (keep(s) && good(s))
    ensures Ratio(Count(samples, part), Count(samples, whole), 0.0) == 1.0 <==> AllGood(samples, keep, good)
  {
    hide Is, Count;
    CountAll(samples, part, whole);
    CountPositive(samples, whole);
    assert (exists s :: s in samples && Is(s, whole)) <==> (exists s :: s in samples && keep(s));
    if Count(samples, whole) > 0 { Quotients(Count(samples, part) as real, Count(samples, whole) as real); }
  }

  /** The shares of refusals that were due, of due refusals made, and of supported questions answered. */
  lemma RefusalRatesExactly(discount: nat -> real, samples: seq<Sample>)
    ensures var a := EvaluateSamples(discount, samples);
      && (a.refusalPrecision == 1.0 <==>
            AllGood(samples, (s: Sample) => Scores(s) && s.refused, (s: Sample) => s.shouldRefuse))
      && (a.refusalRecall == 1.0 <==>
            AllGood(samples, (s: Sample) => Scores(s) && s.shouldRefuse, (s: Sample) => s.refused))
      && (a.supportedAnswerRecall == 1.0 <==>
            AllGood(samples, (s: Sample) => Scores(s) && !s.shouldRefuse, (s: Sample) => !s.refused))
  {
    hide Mean, Ratio, Count, AllGood, HallucinatedClaims, AssessedClaims;
    ShareOfCounts(samples, CorrectRefusal, Refusal, (s: Sample) => Scores(s) && s.refused,
      (s: Sample) => s.shouldRefuse);
    ShareOfCounts(samples, CorrectRefusal, RefusalCase, (s: Sample) => Scores(s) && s.shouldRefuse,
      (s: Sample) => s.refused);
    ShareOfCounts(samples, SupportedAnswer, Supported, (s: Sample) => Scores(s) && !s.shouldRefuse,
      (s: Sample) => !s.refused);
  }

  predicate Claimed(s: Sample) {
    s.claimCount > 0
  }

  lemma {:induction false} ClaimsAreSums(samples: seq<Sample>)
    ensures AssessedClaims(samples) as real == Sum(Chosen(samples, Claimed), (s: Sample) => s.claimCount as real)
    ensures HallucinatedClaims(samples) as real ==
      Sum(Chosen(samples, Claimed), (s: Sample) => s.hallucinatedClaims as real)
  {
    if samples != [] {
      ClaimsAreSums(samples[1..]);
      var rest := Chosen(samples[1..], Claimed);
      assert ([samples[0]] + rest)[1..] == rest && [] + rest == rest;
    }
  }

  lemma {:induction false} ClaimsPositive(samples: seq<Sample>)
    ensures AssessedClaims(samples) >= 0
    ensures AssessedClaims(samples) == 0 <==> Chosen(samples, Claimed) == []
  {
    if samples != [] { ClaimsPositive(samples[1..]); }
  }

  /** The hallucination rate times the claims of all questions that have some is the hallucinated claims of these. */
  lemma HallucinationRateIs(discount: nat -> real, samples: seq<Sample>)
    ensures var rate, chosen := EvaluateSamples(discount, samples).hallucinationRate, Chosen(samples, Claimed);
      && rate * Sum(chosen, (s: Sample) => s.claimCount as real) ==
           Sum(chosen, (s: Sample) => s.hallucinatedClaims as real)
      && (chosen == [] ==> rate == 0.0)
  {
    hide Mean, Count, Sum, Chosen, HallucinatedClaims, AssessedClaims;
    ClaimsAreSums(samples);
    ClaimsPositive(samples);
    NoneChosen((s: Sample) => s.claimCount as real);
    NoneChosen((s: Sample) => s.hallucinatedClaims as real);
    if AssessedClaims(samples) != 0 {
      QuotientTimes(HallucinatedClaims(samples) as real, AssessedClaims(samples) as real);
    }
  }

  /** The counts reported beside the rates. */
  lemma CountsAre(discount: nat -> real, samples: seq<Sample>)
    ensures var a := EvaluateSamples(discount, samples);
      && a.questionCount == |samples|
      && a.evaluationErrorCount == |Chosen(samples, (s: Sample) => s.evaluationFailed)|
      && a.qualityAssessedQuestions == |Chosen(samples, Scores)|
  {
    hide Mean, Ratio, Count, HallucinatedClaims, AssessedClaims;
    CountIsChosen(samples, Failed, (s: Sample) => s.evaluationFailed);
    CountIsChosen(samples, Scored, Scores);
  }

  // ---------------------------------------------------------------- the rates as means

  /** The share of `part` in `whole`, with a value for an empty whole. */
  function Share(part: set<string>, whole: set<string>, none: real): real {
    if whole == {} then none else |part * whole| as real / |whole| as real
  }

  lemma SharesAre(discount: nat -> real, s: Sample)
    ensures var m := EvaluateSample(discount, s);
      && m.citationAccuracy == Share(ExpectedCitations(s), CitedItems(s), 0.0)
      && m.citationCompleteness == Share(CitedItems(s), ExpectedCitations(s), 0.0)
      && m.documentCitationAccuracy == Share(s.relevantDocumentIds, s.citedDocumentIds, 0.0)
      && m.documentCitationCompleteness == Share(s.citedDocumentIds, s.relevantDocumentIds, 0.0)
      && m.answerPointCoverage == Share(s.coveredAnswerPoints, s.expectedAnswerPoints, 1.0)
  {
    hide Recall, ReciprocalRank, Ndcg, Hit, AnswerGrounded, Retrieved, RelevantItems, CitedItems, ExpectedCitations;
    SameMeet(CitedItems(s), ExpectedCitations(s));
    SameMeet(s.citedDocumentIds, s.relevantDocumentIds);
    SameMeet(s.coveredAnswerPoints, s.expectedAnswerPoints);
  }

  lemma SameMeet(a: set<string>, b: set<string>)
    ensures a * b == b * a
    ensures |a| == 0 <==> a == {}
    ensures |b| == 0 <==> b == {}
  {
  }

  /** Each rate of citations and answer points is the mean of a share over the questions it is about. */
  lemma RatesAreMeans(discount: nat -> real, samples: seq<Sample>)
    ensures var a := EvaluateSamples(discount, samples);
      var precision, recall := (s: Sample) => Share(ExpectedCitations(s), CitedItems(s), 0.0),
                               (s: Sample) => Share(CitedItems(s), ExpectedCitations(s), 0.0);
      && IsMean(a.citationPrecision, samples, Cites, precision) && IsMean(a.citationRecall, samples, Cites, recall)
      && IsMean(a.emittedCitationPrecision, samples, Answers, precision)
      && IsMean(a.emittedCitationRecall, samples, Answers, recall)
      && IsMean(a.answerPointCoverage, samples, Scores,
           (s: Sample) => Share(s.coveredAnswerPoints, s.expectedAnswerPoints, 1.0))
  {
    hide EvaluateSample, Mean, Ratio, Count, IsMean, HallucinatedClaims, AssessedClaims, Share;
    var precision, recall := (s: Sample) => Share(ExpectedCitations(s), CitedItems(s), 0.0),
                             (s: Sample) => Share(CitedItems(s), ExpectedCitations(s), 0.0);
    forall s { SharesAre(discount, s); }
    MeanIsSum(discount, samples, CitationCase, CitationAccuracy, Cites, precision);
    MeanIsSum(discount, samples, CitationCase, CitationCompleteness, Cites, recall);
    MeanIsSum(discount, samples, Answered, CitationAccuracy, Answers, precision);
    MeanIsSum(discount, samples, Answered, CitationCompleteness, Answers, recall);
    MeanIsSum(discount, samples, Scored, AnswerPointCoverage, Scores,
      (s: Sample) => Share(s.coveredAnswerPoints, s.expectedAnswerPoints, 1.0));
  }

  lemma DocumentRatesAreMeans(discount: nat -> real, samples: seq<Sample>)
    ensures var a := EvaluateSamples(discount, samples);
      var precision, recall := (s: Sample) => Share(s.relevantDocumentIds, s.citedDocumentIds, 0.0),
                               (s: Sample) => Share(s.citedDocumentIds, s.relevantDocumentIds, 0.0);
      && IsMean(a.documentCitationPrecision, samples, Cites, precision)
      && IsMean(a.documentCitationRecall, samples, Cites, recall)
      && IsMean(a.emittedDocumentCitationPrecision, samples, Answers, precision)
      && IsMean(a.emittedDocumentCitationRecall, samples, Answers, recall)
  {
    hide EvaluateSample, Mean, Ratio, Count, IsMean, HallucinatedClaims, AssessedClaims, Share;
    var precision, recall := (s: Sample) => Share(s.relevantDocumentIds, s.citedDocumentIds, 0.0),
                             (s: Sample) => Share(s.citedDocumentIds, s.relevantDocumentIds, 0.0);
    forall s { SharesAre(discount, s); }
    MeanIsSum(discount, samples, CitationCase, DocumentCitationAccuracy, Cites, precision);
    MeanIsSum(discount, samples, CitationCase, DocumentCitationCompleteness, Cites, recall);
    MeanIsSum(discount, samples, Answered, DocumentCitationAccuracy, Answers, precision);
    MeanIsSum(discount, samples, Answered, DocumentCitationCompleteness, Answers, recall);
  }

  /** The share of the relevant items that is among the first k results. */
  function Found(s: Sample, k: nat): real {
    Share(SetOf(Take(Retrieved(s), k)), RelevantItems(s), 1.0)
  }

  lemma RanksAre(discount: nat -> real, s: Sample)
    ensures var m := EvaluateSample(discount, s);
      && m.recallAt1 == Found(s, 1)
      && m.recallAt5 == Found(s, 5)
      && m.recallAt10 == Found(s, 10)
      && m.reciprocalRank == ReciprocalRank(Retrieved(s), RelevantItems(s))
      && m.ndcgAt10 == Ndcg(discount, Retrieved(s), RelevantItems(s), 10)
  {
    hide ReciprocalRank, Ndcg, Hit, AnswerGrounded, Retrieved, RelevantItems, SetRecall, SetPrecision,
      CitationRecall, CitedItems, ExpectedCitations, Take;
  }

  /** The retrieval rates are the means of the share found, reciprocal rank and nDCG over the scored questions. */
  lemma RetrievalRatesAreMeans(discount: nat -> real, samples: seq<Sample>)
    ensures var a := EvaluateSamples(discount, samples);
      && IsMean(a.recallAt1, samples, Scores, s => Found(s, 1))
      && IsMean(a.recallAt5, samples, Scores, s => Found(s, 5))
      && IsMean(a.recallAt10, samples, Scores, s => Found(s, 10))
      && IsMean(a.mrr, samples, Scores, s => ReciprocalRank(Retrieved(s), RelevantItems(s)))
      && IsMean(a.ndcgAt10, samples, Scores, s => Ndcg(discount, Retrieved(s), RelevantItems(s), 10))
  {
    hide EvaluateSample, Mean, Ratio, Count, IsMean, HallucinatedClaims, AssessedClaims, Found, ReciprocalRank, Ndcg,
      Retrieved, RelevantItems;
    forall s { RanksAre(discount, s); }
    MeanIsSum(discount, samples, Scored, RecallAt1, Scores, s => Found(s, 1));
    MeanIsSum(discount, samples, Scored, RecallAt5, Scores, s => Found(s, 5));
    MeanIsSum(discount, samples, Scored, RecallAt10, Scores, s => Found(s, 10));
    MeanIsSum(discount, samples, Scored, ReciprocalRankOf, Scores, s => ReciprocalRank(Retrieved(s), RelevantItems(s)));
    MeanIsSum(discount, samples, Scored, NdcgAt10, Scores, s => Ndcg(discount, Retrieved(s), RelevantItems(s), 10));
  }

  // ---------------------------------------------------------------- nDCG of one item

  lemma {:induction false} NoGain(discount: nat -> real, ranked: seq<string>, relevant: set<string>, rank: nat)
    requires forall v | v in ranked :: v !in relevant
    ensures Gain(discount, ranked, relevant, rank) == 0.0
  {
    if ranked != [] {
      assert ranked == [ranked[0]] + ranked[1..];
      NoGain(discount, ranked[1..], relevant, rank + 1);
    }
  }

  lemma {:induction false} OneGain(discount: nat -> real, ranked: seq<string>, item: string, i: nat, rank: nat)
    requires i < |ranked| && ranked[i] == item && forall j | 0 <= j < |ranked| && j != i :: ranked[j] != item
    ensures Gain(discount, ranked, {item}, rank) == discount(rank + i)
  {
    assert forall j | 0 <= j < |ranked[1..]| :: ranked[1..][j] == ranked[j + 1];
    if i == 0 {
      NoGain(discount, ranked[1..], {item}, rank + 1);
    } else {
      OneGain(discount, ranked[1..], item, i - 1, rank + 1);
    }
  }

  /** With one relevant item, nDCG is the discount of its place among the distinct results over that of the first. */
  lemma NdcgOfOneItem(discount: nat -> real, retrieved: seq<string>, item: string, k: nat, i: nat)
    requires IsDiscount(discount) && k > 0
    requires i < |Take(Unique(retrieved), k)| && Take(Unique(retrieved), k)[i] == item
    ensures Ndcg(discount, retrieved, {item}, k) == discount(i + 1) / discount(1)
  {
    hide Unique, Gain;
    UniqueIsDistinct(retrieved);
    var ranked := Take(Unique(retrieved), k);
    assert forall j | 0 <= j < |ranked| :: ranked[j] == Unique(retrieved)[j];
    OneGain(discount, ranked, item, i, 1);
    assert IdealGain(discount, 1, 1) == discount(1) + IdealGain(discount, 2, 0);
    assert Min(k, |{item}|) == 1;
  }
}
