/**
 Ranking and answer metrics of an evaluation run (`backend/app/evaluation/metrics.py`), over the
 reals. The discount stands for `1 / log2(rank + 1)`: of it only that it is positive and falls is used.
 */
module RankingMetrics {
  import opened Sequences
  import opened Wrappers

  ghost predicate IsDiscount(discount: nat -> real) {
    && (forall r: nat | r > 0 :: discount(r) > 0.0)
    && (forall r: nat, s: nat | 0 < r < s :: discount(r) > discount(s))
  }

  // ---------------------------------------------------------------- discounted gain

  /** The gain of a ranking whose first item has the given rank. */
  function Gain(discount: nat -> real, ranked: seq<string>, relevant: set<string>, rank: nat): real {
    if ranked == [] then 0.0
    else (if ranked[0] in relevant then discount(rank) else 0.0) + Gain(discount, ranked[1..], relevant, rank + 1)
  }

  /** The gain of `count` relevant items in a row. */
  function IdealGain(discount: nat -> real, rank: nat, count: nat): real
    decreases count
  {
    if count == 0 then 0.0 else discount(rank) + IdealGain(discount, rank + 1, count - 1)
  }

  function Relevant(ranked: seq<string>, relevant: set<string>): (n: nat)
    ensures n <= |ranked|
  {
    if ranked == [] then 0 else (if ranked[0] in relevant then 1 else 0) + Relevant(ranked[1..], relevant)
  }

  /** The first `n` items are there and all relevant. */
  predicate LeadsWith(ranked: seq<string>, relevant: set<string>, n: nat) {
    n <= |ranked| && forall i | 0 <= i < n :: ranked[i] in relevant
  }

  /** Later ranks are worth less, and every further item is worth something. */
  lemma {:induction false} IdealGainOrder(discount: nat -> real, rank: nat, count: nat)
    requires IsDiscount(discount) && rank > 0
    ensures IdealGain(discount, rank, count) >= 0.0
    ensures count > 0 ==> IdealGain(discount, rank, count) > IdealGain(discount, rank + 1, count)
    ensures IdealGain(discount, rank, count) < IdealGain(discount, rank, count + 1)
    decreases count
  {
    if count > 0 {
      IdealGainOrder(discount, rank + 1, count - 1);
    }
  }

  lemma {:induction false} IdealGainMonotonic(discount: nat -> real, rank: nat, few: nat, many: nat)
    requires IsDiscount(discount) && rank > 0 && few <= many
    ensures IdealGain(discount, rank, few) <= IdealGain(discount, rank, many)
    ensures few < many ==> IdealGain(discount, rank, few) < IdealGain(discount, rank, many)
    decreases many
  {
    if few < many {
      IdealGainMonotonic(discount, rank, few, many - 1);
      IdealGainOrder(discount, rank, many - 1);
    }
  }

  /** A ranking gains at most what its relevant items would in front, and just that when they are. */
  lemma {:induction false} GainAtMostIdeal(discount: nat -> real, ranked: seq<string>, relevant: set<string>, rank: nat)
    requires IsDiscount(discount) && rank > 0
    ensures var n := Relevant(ranked, relevant);
      && 0.0 <= Gain(discount, ranked, relevant, rank) <= IdealGain(discount, rank, n)
      && (Gain(discount, ranked, relevant, rank) == IdealGain(discount, rank, n) <==> LeadsWith(ranked, relevant, n))
      && (Gain(discount, ranked, relevant, rank) == 0.0 <==> n == 0)
  {
    if ranked != [] {
      var tail := ranked[1..];
      GainAtMostIdeal(discount, tail, relevant, rank + 1);
      var n := Relevant(tail, relevant);
      IdealGainOrder(discount, rank, n);
      if ranked[0] in relevant {
        LeadsWithTail(ranked, relevant, n);
      }
    }
  }

  lemma LeadsWithTail(ranked: seq<string>, relevant: set<string>, n: nat)
    requires ranked != [] && ranked[0] in relevant
    ensures LeadsWith(ranked, relevant, n + 1) <==> LeadsWith(ranked[1..], relevant, n)
  {
    if LeadsWith(ranked[1..], relevant, n) {
      forall i | 0 <= i < n + 1 ensures ranked[i] in relevant {
        if i > 0 { assert ranked[i] == ranked[1..][i - 1]; }
      }
    }
  }

  /** Distinct items hit each relevant item at most once. */
  lemma {:induction false} RelevantAtMost(ranked: seq<string>, relevant: set<string>)
    requires Distinct(ranked)
    ensures Relevant(ranked, relevant) == |SetOf(ranked) * relevant|
    ensures Relevant(ranked, relevant) <= |relevant|
  {
    if ranked != [] {
      var head, tail := ranked[0], ranked[1..];
      RelevantAtMost(tail, relevant);
      assert ranked == [head] + tail && head !in SetOf(tail);
      if head in relevant {
        assert SetOf(ranked) * relevant == SetOf(tail) * relevant + {head};
      } else {
        assert SetOf(ranked) * relevant == SetOf(tail) * relevant;
      }
    }
    SubsetSize(SetOf(ranked) * relevant, relevant);
  }

  lemma {:induction false} LeadingAreRelevant(ranked: seq<string>, relevant: set<string>, n: nat)
    requires LeadsWith(ranked, relevant, n)
    ensures Relevant(ranked, relevant) >= n
  {
    if n > 0 {
      LeadsWithTail(ranked, relevant, n - 1);
      LeadingAreRelevant(ranked[1..], relevant, n - 1);
    }
  }

  /** Putting a relevant item in front of one that is not raises the gain. */
  lemma {:induction false} PromotionRaisesGain(discount: nat -> real, before: seq<string>, x: string, y: string,
                                               after: seq<string>,
                                               relevant: set<string>, rank: nat)
    requires IsDiscount(discount) && rank > 0 && x !in relevant && y in relevant
    ensures Gain(discount, before + [y, x] + after, relevant, rank)
      > Gain(discount, before + [x, y] + after, relevant, rank)
  {
    if before == [] {
      SwapGain(discount, x, y, after, relevant, rank);
      assert before + [y, x] + after == [y, x] + after && before + [x, y] + after == [x, y] + after;
    } else {
      PromotionRaisesGain(discount, before[1..], x, y, after, relevant, rank + 1);
      assert (before + [y, x] + after)[1..] == before[1..] + [y, x] + after;
      assert (before + [x, y] + after)[1..] == before[1..] + [x, y] + after;
    }
  }

  lemma SwapGain(discount: nat -> real, x: string, y: string, after: seq<string>, relevant: set<string>, rank: nat)
    requires IsDiscount(discount) && rank > 0 && x !in relevant && y in relevant
    ensures Gain(discount, [y, x] + after, relevant, rank) > Gain(discount, [x, y] + after, relevant, rank)
  {
    assert ([y, x] + after)[1..] == [x] + after && ([x, y] + after)[1..] == [y] + after;
    assert ([x] + after)[1..] == after && ([y] + after)[1..] == after;
  }

  // ---------------------------------------------------------------- the ranking metrics

  function Ndcg(discount: nat -> real, retrieved: seq<string>, relevant: set<string>, k: nat): real {
    var ideal := IdealGain(discount, 1, Min(k, |relevant|));
    if ideal != 0.0 then Gain(discount, Take(Unique(retrieved), k), relevant, 1) / ideal else 1.0
  }

  function Recall(retrieved: seq<string>, relevant: set<string>, k: nat): real {
    if relevant == {} then 1.0 else |SetOf(Take(retrieved, k)) * relevant| as real / |relevant| as real
  }

  /** The place of the first relevant item, counted from zero. */
  function FirstRelevant(ranked: seq<string>, relevant: set<string>): Option<nat> {
    if ranked == [] then None
    else if ranked[0] in relevant then Some(0)
    else
      var later := FirstRelevant(ranked[1..], relevant);
      if later.Some? then Some(later.value + 1) else None
  }

  function ReciprocalRank(retrieved: seq<string>, relevant: set<string>): real {
    var first := FirstRelevant(Unique(retrieved), relevant);
    if first.Some? then 1.0 / (first.value + 1) as real else if relevant == {} then 1.0 else 0.0
  }

  function Hit(retrieved: seq<string>, relevant: set<string>): real {
    if relevant == {} || exists v :: v in retrieved && v in relevant then 1.0 else 0.0
  }

  lemma Quotients(a: real, b: real)
    requires 0.0 <= a <= b && b > 0.0
    ensures 0.0 <= a / b <= 1.0
    ensures a / b == 1.0 <==> a == b
    ensures a / b == 0.0 <==> a == 0.0
  {
    var q := a / b;
    assert q * b == a;
    Products(q, b);
  }

  lemma Products(q: real, b: real)
    requires b > 0.0
    ensures q < 0.0 ==> q * b < 0.0
    ensures q > 1.0 ==> q * b > b
    ensures q < 1.0 ==> q * b < b
    ensures q == 0.0 ==> q * b == 0.0
    ensures q == 1.0 ==> q * b == b
  {
  }

  /**
   For every ranking, with repetitions, nDCG lies between 0 and 1. It is 1 exactly when as many of
   the first distinct items as can be are relevant, and 0 exactly when none is though one could be.
   */
  lemma NdcgRange(discount: nat -> real, retrieved: seq<string>, relevant: set<string>, k: nat)
    requires IsDiscount(discount)
    ensures 0.0 <= Ndcg(discount, retrieved, relevant, k) <= 1.0
    ensures Ndcg(discount, retrieved, relevant, k) == 1.0 <==>
      LeadsWith(Unique(retrieved), relevant, Min(k, |relevant|))
    ensures Ndcg(discount, retrieved, relevant, k) == 0.0 <==>
      Min(k, |relevant|) > 0 && forall v | v in Take(Unique(retrieved), k) :: v !in relevant
  {
    hide Gain, IdealGain, Unique, LeadsWith, Relevant, IsDiscount;
    var unique, most := Unique(retrieved), Min(k, |relevant|);
    var ranked := Take(unique, k);
    var n := Relevant(ranked, relevant);
    var gain, ideal := Gain(discount, ranked, relevant, 1), IdealGain(discount, 1, most);
    UniqueIsDistinct(retrieved);
    RelevantAtMost(ranked, relevant);
    GainAtMostIdeal(discount, ranked, relevant, 1);
    IdealGainMonotonic(discount, 1, n, most);
    IdealGainPositive(discount, most);
    LeadsWithTaken(unique, relevant, k, most);
    NoneRelevant(ranked, relevant);
    if LeadsWith(ranked, relevant, most) { LeadingAreRelevant(ranked, relevant, most); }
    if ideal > 0.0 {
      Quotients(gain, ideal);
    }
  }

  lemma IdealGainPositive(discount: nat -> real, n: nat)
    requires IsDiscount(discount)
    ensures IdealGain(discount, 1, n) >= 0.0
    ensures IdealGain(discount, 1, n) == 0.0 <==> n == 0
  {
    IdealGainMonotonic(discount, 1, 0, n);
  }

  lemma LeadsWithTaken(ranked: seq<string>, relevant: set<string>, k: nat, n: nat)
    requires n <= k
    ensures LeadsWith(Take(ranked, k), relevant, n) <==> LeadsWith(ranked, relevant, n)
  {
  }

  lemma {:induction false} NoneRelevant(ranked: seq<string>, relevant: set<string>)
    ensures Relevant(ranked, relevant) == 0 <==> forall v | v in ranked :: v !in relevant
  {
    if ranked != [] {
      assert ranked == [ranked[0]] + ranked[1..];
      NoneRelevant(ranked[1..], relevant);
    }
  }

  /** Recall is in [0, 1], does not fall with k, and is 1 exactly when every relevant item is among the first k. */
  lemma RecallRange(retrieved: seq<string>, relevant: set<string>, j: nat, k: nat)
    requires j <= k
    ensures 0.0 <= Recall(retrieved, relevant, j) <= Recall(retrieved, relevant, k) <= 1.0
    ensures Recall(retrieved, relevant, k) == 1.0 <==> relevant <= SetOf(Take(retrieved, k))
  {
    var few, many := SetOf(Take(retrieved, j)) * relevant, SetOf(Take(retrieved, k)) * relevant;
    assert few <= many by {
      assert Take(retrieved, j) == Take(Take(retrieved, k), j);
      forall v | v in Take(retrieved, j) ensures v in Take(retrieved, k) {
        var i :| 0 <= i < |Take(retrieved, j)| && Take(retrieved, j)[i] == v;
        assert Take(retrieved, k)[i] == v;
      }
    }
    SubsetSize(few, many);
    SubsetSize(many, relevant);
    if relevant != {} {
      Quotients(|few| as real, |relevant| as real);
      Quotients(|many| as real, |relevant| as real);
      QuotientOrder(|few| as real, |many| as real, |relevant| as real);
    }
  }

  lemma QuotientOrder(a: real, b: real, c: real)
    requires a <= b && c > 0.0
    ensures a / c <= b / c
  {
  }

  lemma {:induction false} FirstRelevantIs(ranked: seq<string>, relevant: set<string>)
    ensures FirstRelevant(ranked, relevant) == None <==> forall v | v in ranked :: v !in relevant
    ensures FirstRelevant(ranked, relevant).Some? ==>
      var i := FirstRelevant(ranked, relevant).value;
      i < |ranked| && ranked[i] in relevant && forall j | 0 <= j < i :: ranked[j] !in relevant
  {
    if ranked != [] {
      assert ranked == [ranked[0]] + ranked[1..];
      FirstRelevantIs(ranked[1..], relevant);
    }
  }

  /**
   The reciprocal rank lies between 0 and 1; it is at least 1/k exactly when there is nothing to find
   or one of the first k distinct items is relevant, so exactly when nDCG at k is not 0.
   */
  lemma ReciprocalRankRange(discount: nat -> real, retrieved: seq<string>, relevant: set<string>, k: nat)
    requires k > 0 && IsDiscount(discount)
    ensures 0.0 <= ReciprocalRank(retrieved, relevant) <= 1.0
    ensures ReciprocalRank(retrieved, relevant) >= 1.0 / k as real <==>
      relevant == {} || exists v :: v in Take(Unique(retrieved), k) && v in relevant
    ensures ReciprocalRank(retrieved, relevant) >= 1.0 / k as real <==> Ndcg(discount, retrieved, relevant, k) > 0.0
  {
    hide Unique, FirstRelevant, Ndcg, IsDiscount;
    var unique := Unique(retrieved);
    NdcgRange(discount, retrieved, relevant, k);
    FirstRelevantIs(unique, relevant);
    var first := FirstRelevant(unique, relevant);
    Reciprocals(1, k);
    assert |relevant| == 0 <==> relevant == {};
    if first.Some? {
      Reciprocals(first.value + 1, k);
      Reciprocals(1, first.value + 1);
      if first.value < k {
        assert Take(unique, k)[first.value] in relevant && Take(unique, k)[first.value] in Take(unique, k);
      } else {
        assert forall v | v in Take(unique, k) :: v !in relevant;
      }
    } else {
      assert forall v | v in Take(unique, k) :: v in unique;
    }
  }

  lemma Reciprocals(a: nat, b: nat)
    requires a > 0 && b > 0
    ensures 1.0 / a as real > 0.0
    ensures 1.0 / a as real >= 1.0 / b as real <==> a <= b
  {
    var x, y := 1.0 / a as real, 1.0 / b as real;
    assert x * a as real == 1.0 && y * b as real == 1.0;
    Products(x, a as real);
    Products(y, b as real);
    if a <= b { QuotientOrderBelow(a as real, b as real); }
    if b < a { QuotientOrderStrict(b as real, a as real); }
  }

  lemma QuotientOrderBelow(a: real, b: real)
    requires 0.0 < a <= b
    ensures 1.0 / b <= 1.0 / a
  {
  }

  lemma QuotientOrderStrict(a: real, b: real)
    requires 0.0 < a < b
    ensures 1.0 / b < 1.0 / a
  {
  }

  /** A relevant item among the first k results is among the first k distinct ones: what recall sees, nDCG sees. */
  lemma RecallImpliesGain(discount: nat -> real, retrieved: seq<string>, relevant: set<string>, k: nat)
    requires IsDiscount(discount)
    ensures Recall(retrieved, relevant, k) > 0.0 ==> Ndcg(discount, retrieved, relevant, k) > 0.0
  {
    hide Unique, Ndcg, IsDiscount, Recall, LeadsWith;
    NdcgRange(discount, retrieved, relevant, k);
    if Recall(retrieved, relevant, k) > 0.0 && relevant != {} {
      var v := FoundItem(retrieved, relevant, k);
      AmongFirst(retrieved, k, v);
    }
  }

  lemma FoundItem(retrieved: seq<string>, relevant: set<string>, k: nat) returns (v: string)
    requires Recall(retrieved, relevant, k) > 0.0 && relevant != {}
    ensures v in Take(retrieved, k) && v in relevant
  {
    var found := SetOf(Take(retrieved, k)) * relevant;
    if found == {} {
      Quotients(|found| as real, |relevant| as real);
      assert false;
    }
    v :| v in found;
  }

  /** An item among the first k results is among the first k distinct ones. */
  lemma AmongFirst(retrieved: seq<string>, k: nat, v: string)
    requires v in Take(retrieved, k)
    ensures v in Take(Unique(retrieved), k)
  {
    hide Unique;
    var n := Min(k, |retrieved|);
    var first := Unique(retrieved[..n]);
    UniquePrefix(retrieved, n);
    UniqueIsDistinct(retrieved[..n]);
    var i :| 0 <= i < |first| && first[i] == v;
    assert Take(Unique(retrieved), k)[i] == v;
  }

  // ---------------------------------------------------------------- one question

  datatype Sample = Sample(
    retrievedIds: seq<string>, relevantIds: set<string>,
    expectedAnswerPoints: set<string>, coveredAnswerPoints: set<string>,
    expectedCitationIds: set<string>, citedIds: set<string>,
    shouldRefuse: bool, refused: bool, hallucinatedClaims: int, claimCount: int,
    retrievedDocumentIds: seq<string>, relevantDocumentIds: set<string>, citedDocumentIds: set<string>,
    groundingValidated: Option<bool>, evaluationFailed: bool)

  datatype SampleMetrics = SampleMetrics(
    documentHit: real, chunkHit: real, recallAt1: real, recallAt5: real, recallAt10: real,
    reciprocalRank: real, ndcgAt10: real, answerPointCoverage: real,
    citationAccuracy: real, citationCompleteness: real,
    documentCitationAccuracy: real, documentCitationCompleteness: real,
    refusalCorrect: real, hallucinationRate: real, answerGrounded: real, unsupportedAnswer: real,
    evaluationSuccess: real)

  function AsReal(b: bool): real {
    if b then 1.0 else 0.0
  }

  /** `a / b`, with a value for no cases at all. */
  function Ratio(a: int, b: int, none: real): real {
    if b == 0 then none else a as real / b as real
  }

  function SetPrecision(actual: set<string>, expected: set<string>): real {
    Ratio(|actual * expected|, |actual|, 0.0)
  }

  function SetRecall(actual: set<string>, expected: set<string>): real {
    Ratio(|actual * expected|, |expected|, 1.0)
  }

  function CitationRecall(actual: set<string>, expected: set<string>): real {
    Ratio(|actual * expected|, |expected|, 0.0)
  }

  /** Chunks are ranked when relevant chunks are known, documents otherwise. */
  function Retrieved(s: Sample): seq<string> {
    if s.relevantIds != {} then s.retrievedIds else s.retrievedDocumentIds
  }

  function RelevantItems(s: Sample): set<string> {
    if s.relevantIds != {} then s.relevantIds else s.relevantDocumentIds
  }

  predicate CitesDocuments(s: Sample) {
    s.expectedCitationIds == {} && !s.shouldRefuse && s.relevantDocumentIds != {}
  }

  function CitedItems(s: Sample): set<string> {
    if CitesDocuments(s) then s.citedDocumentIds else s.citedIds
  }

  function ExpectedCitations(s: Sample): set<string> {
    if CitesDocuments(s) then s.relevantDocumentIds else s.expectedCitationIds
  }

  function AnswerGrounded(s: Sample): real {
    if s.refused then 0.0
    else if s.groundingValidated.Some? then AsReal(s.groundingValidated.value)
    else if CitedItems(s) == {} then 0.0
    else if s.claimCount > 0 then AsReal(s.hallucinatedClaims == 0)
    else 1.0
  }

  function EvaluateSample(discount: nat -> real, s: Sample): SampleMetrics {
    SampleMetrics(
      Hit(s.retrievedDocumentIds, s.relevantDocumentIds), Hit(s.retrievedIds, s.relevantIds),
      Recall(Retrieved(s), RelevantItems(s), 1), Recall(Retrieved(s), RelevantItems(s), 5),
      Recall(Retrieved(s), RelevantItems(s), 10),
      ReciprocalRank(Retrieved(s), RelevantItems(s)), Ndcg(discount, Retrieved(s), RelevantItems(s), 10),
      SetRecall(s.coveredAnswerPoints, s.expectedAnswerPoints),
      SetPrecision(CitedItems(s), ExpectedCitations(s)), CitationRecall(CitedItems(s), ExpectedCitations(s)),
      SetPrecision(s.citedDocumentIds, s.relevantDocumentIds),
      CitationRecall(s.citedDocumentIds, s.relevantDocumentIds),
      AsReal(!s.evaluationFailed && s.refused == s.shouldRefuse),
      if s.claimCount > 0 then s.hallucinatedClaims as real / s.claimCount as real else 0.0,
      AnswerGrounded(s),
      AsReal(!s.evaluationFailed && s.shouldRefuse && !s.refused),
      AsReal(!s.evaluationFailed))
  }

  predicate Unit(x: real) {
    0.0 <= x <= 1.0
  }

  predicate AllUnit(m: SampleMetrics) {
    && Unit(m.documentHit) && Unit(m.chunkHit) && Unit(m.recallAt1) && Unit(m.recallAt5) && Unit(m.recallAt10)
    && Unit(m.reciprocalRank) && Unit(m.ndcgAt10) && Unit(m.answerPointCoverage)
    && Unit(m.citationAccuracy) && Unit(m.citationCompleteness)
    && Unit(m.documentCitationAccuracy) && Unit(m.documentCitationCompleteness)
    && Unit(m.refusalCorrect) && Unit(m.hallucinationRate) && Unit(m.answerGrounded)
    && Unit(m.unsupportedAnswer) && Unit(m.evaluationSuccess)
  }

  /** No more hallucinated claims than claims, where there are claims. */
  predicate ClaimsAddUp(s: Sample) {
    s.claimCount > 0 ==> 0 <= s.hallucinatedClaims <= s.claimCount
  }

  lemma RatioIsUnit(a: int, b: int, none: real)
    requires 0 <= a <= b && Unit(none)
    ensures Unit(Ratio(a, b, none))
  {
    if b > 0 { Quotients(a as real, b as real); }
  }

  lemma OverlapsAreUnit(actual: set<string>, expected: set<string>)
    ensures Unit(SetPrecision(actual, expected)) && Unit(SetRecall(actual, expected))
      && Unit(CitationRecall(actual, expected))
  {
    hide Ratio;
    SubsetSize(actual * expected, actual);
    SubsetSize(actual * expected, expected);
    RatioIsUnit(|actual * expected|, |actual|, 0.0);
    RatioIsUnit(|actual * expected|, |expected|, 1.0);
    RatioIsUnit(|actual * expected|, |expected|, 0.0);
  }

  lemma FlagsAreUnit(s: Sample)
    ensures Unit(AnswerGrounded(s)) && Unit(Hit(s.retrievedDocumentIds, s.relevantDocumentIds))
      && Unit(Hit(s.retrievedIds, s.relevantIds))
    ensures forall b :: Unit(AsReal(b))
  {
  }

  lemma SampleIsUnit(discount: nat -> real, s: Sample)
    requires IsDiscount(discount) && ClaimsAddUp(s)
    ensures AllUnit(EvaluateSample(discount, s))
    ensures var m := EvaluateSample(discount, s); m.recallAt1 <= m.recallAt5 <= m.recallAt10
  {
    hide IsDiscount, Recall, ReciprocalRank, Ndcg, SetRecall, SetPrecision, CitationRecall, Retrieved, RelevantItems,
      CitedItems, ExpectedCitations, Hit, AsReal, AnswerGrounded;
    FlagsAreUnit(s);
    RecallRange(Retrieved(s), RelevantItems(s), 1, 5);
    RecallRange(Retrieved(s), RelevantItems(s), 5, 10);
    ReciprocalRankRange(discount, Retrieved(s), RelevantItems(s), 1);
    NdcgRange(discount, Retrieved(s), RelevantItems(s), 10);
    OverlapsAreUnit(s.coveredAnswerPoints, s.expectedAnswerPoints);
    OverlapsAreUnit(CitedItems(s), ExpectedCitations(s));
    OverlapsAreUnit(s.citedDocumentIds, s.relevantDocumentIds);
    if s.claimCount > 0 { Quotients(s.hallucinatedClaims as real, s.claimCount as real); }
  }

  /** What the metrics of a question say of its claims and of its being refused or failed. */
  lemma SampleSays(discount: nat -> real, s: Sample)
    ensures var m := EvaluateSample(discount, s);
      && (s.claimCount > 0 ==> m.hallucinationRate * s.claimCount as real == s.hallucinatedClaims as real)
      && (s.claimCount <= 0 ==> m.hallucinationRate == 0.0)
      && (s.refused ==> m.answerGrounded == 0.0)
      && (s.evaluationFailed ==> m.refusalCorrect == m.unsupportedAnswer == m.evaluationSuccess == 0.0)
      && (!s.evaluationFailed ==> m.evaluationSuccess == 1.0)
  {
    hide Recall, ReciprocalRank, Ndcg, SetRecall, SetPrecision, CitationRecall, Hit;
  }

  // ---------------------------------------------------------------- a whole run

  datatype Aggregate = Aggregate(
    questionCount: nat, recallAt1: real, recallAt5: real, recallAt10: real, mrr: real, ndcgAt10: real,
    answerPointCoverage: real, citationPrecision: real, citationRecall: real,
    emittedCitationPrecision: real, emittedCitationRecall: real,
    documentCitationPrecision: real, documentCitationRecall: real,
    emittedDocumentCitationPrecision: real, emittedDocumentCitationRecall: real,
    refusalAccuracy: real, hallucinationRate: real, answerGroundingRate: real, unsupportedAnswerRate: real,
    refusalPrecision: real, refusalRecall: real, supportedAnswerRecall: real,
    documentHitRate: real, chunkHitRate: real, evaluationErrorCount: nat, qualityAssessedQuestions: nat)

  /** The fields of a sample's metrics that are averaged. */
  datatype Field =
    | DocumentHit | ChunkHit | RecallAt1 | RecallAt5 | RecallAt10 | ReciprocalRankOf | NdcgAt10 | AnswerPointCoverage
    | CitationAccuracy | CitationCompleteness | DocumentCitationAccuracy | DocumentCitationCompleteness
    | RefusalCorrect | Grounded | UnsupportedAnswer

  function Get(m: SampleMetrics, field: Field): real {
    match field
    case DocumentHit => m.documentHit
    case ChunkHit => m.chunkHit
    case RecallAt1 => m.recallAt1
    case RecallAt5 => m.recallAt5
    case RecallAt10 => m.recallAt10
    case ReciprocalRankOf => m.reciprocalRank
    case NdcgAt10 => m.ndcgAt10
    case AnswerPointCoverage => m.answerPointCoverage
    case CitationAccuracy => m.citationAccuracy
    case CitationCompleteness => m.citationCompleteness
    case DocumentCitationAccuracy => m.documentCitationAccuracy
    case DocumentCitationCompleteness => m.documentCitationCompleteness
    case RefusalCorrect => m.refusalCorrect
    case Grounded => m.answerGrounded
    case UnsupportedAnswer => m.unsupportedAnswer
  }

  /** The groups of samples that are averaged over or counted; all but the failed ones were scored. */
  datatype Kind =
    | Failed | Scored | Answered | RefusalCase | CitationCase | Refusal | CorrectRefusal | Supported | SupportedAnswer

  predicate Is(s: Sample, kind: Kind) {
    if s.evaluationFailed then kind.Failed?
    else match kind
      case Failed => false
      case Scored => true
      case Answered => !s.refused
      case RefusalCase => s.shouldRefuse
      case CitationCase => !(s.shouldRefuse && s.refused)
      case Refusal => s.refused
      case CorrectRefusal => s.refused && s.shouldRefuse
      case Supported => !s.shouldRefuse
      case SupportedAnswer => !s.shouldRefuse && !s.refused
  }

  function Count(samples: seq<Sample>, kind: Kind): (n: nat)
    ensures n <= |samples|
  {
    if samples == [] then 0 else (if Is(samples[0], kind) then 1 else 0) + Count(samples[1..], kind)
  }

  function Total(discount: nat -> real, samples: seq<Sample>, kind: Kind, field: Field): real {
    if samples == [] then 0.0
    else
      (if Is(samples[0], kind) then Get(EvaluateSample(discount, samples[0]), field) else 0.0)
      + Total(discount, samples[1..], kind, field)
  }

  /** The mean of a field over a group of samples, 0 when the group is empty. */
  function Mean(discount: nat -> real, samples: seq<Sample>, kind: Kind, field: Field): real {
    if Count(samples, kind) == 0 then 0.0 else Total(discount, samples, kind, field) / Count(samples, kind) as real
  }

  function AssessedClaims(samples: seq<Sample>): int {
    if samples == [] then 0
    else (if samples[0].claimCount > 0 then samples[0].claimCount else 0) + AssessedClaims(samples[1..])
  }

  function HallucinatedClaims(samples: seq<Sample>): int {
    if samples == [] then 0
    else (if samples[0].claimCount > 0 then samples[0].hallucinatedClaims else 0) + HallucinatedClaims(samples[1..])
  }

  function EvaluateSamples(discount: nat -> real, samples: seq<Sample>): Aggregate {
    var mean := (kind, field) => Mean(discount, samples, kind, field);
    Aggregate(
      |samples|,
      mean(Scored, RecallAt1), mean(Scored, RecallAt5), mean(Scored, RecallAt10),
      mean(Scored, ReciprocalRankOf), mean(Scored, NdcgAt10), mean(Scored, AnswerPointCoverage),
      mean(CitationCase, CitationAccuracy), mean(CitationCase, CitationCompleteness),
      mean(Answered, CitationAccuracy), mean(Answered, CitationCompleteness),
      mean(CitationCase, DocumentCitationAccuracy), mean(CitationCase, DocumentCitationCompleteness),
      mean(Answered, DocumentCitationAccuracy), mean(Answered, DocumentCitationCompleteness),
      mean(Scored, RefusalCorrect),
      Ratio(HallucinatedClaims(samples), AssessedClaims(samples), 0.0),
      mean(Answered, Grounded), mean(RefusalCase, UnsupportedAnswer),
      Ratio(Count(samples, CorrectRefusal), Count(samples, Refusal), 0.0),
      Ratio(Count(samples, CorrectRefusal), Count(samples, RefusalCase), 0.0),
      Ratio(Count(samples, SupportedAnswer), Count(samples, Supported), 0.0),
      mean(Scored, DocumentHit), mean(Scored, ChunkHit),
      Count(samples, Failed), Count(samples, Scored))
  }

  predicate RatesAreUnit(a: Aggregate) {
    && Unit(a.recallAt1) && Unit(a.recallAt5) && Unit(a.recallAt10) && Unit(a.mrr) && Unit(a.ndcgAt10)
    && Unit(a.answerPointCoverage) && Unit(a.citationPrecision) && Unit(a.citationRecall)
    && Unit(a.emittedCitationPrecision) && Unit(a.emittedCitationRecall)
    && Unit(a.documentCitationPrecision) && Unit(a.documentCitationRecall)
    && Unit(a.emittedDocumentCitationPrecision) && Unit(a.emittedDocumentCitationRecall)
    && Unit(a.refusalAccuracy) && Unit(a.hallucinationRate) && Unit(a.answerGroundingRate)
    && Unit(a.unsupportedAnswerRate)
    && Unit(a.refusalPrecision) && Unit(a.refusalRecall) && Unit(a.supportedAnswerRecall)
    && Unit(a.documentHitRate) && Unit(a.chunkHitRate)
  }

  lemma {:induction false} TotalBounds(discount: nat -> real, samples: seq<Sample>, kind: Kind, field: Field)
    requires forall s | s in samples :: AllUnit(EvaluateSample(discount, s))
    ensures 0.0 <= Total(discount, samples, kind, field) <= Count(samples, kind) as real
  {
    hide EvaluateSample, AllUnit, Get, Is;
    if samples != [] {
      assert samples == [samples[0]] + samples[1..];
      FieldIsUnit(EvaluateSample(discount, samples[0]), field);
      TotalBounds(discount, samples[1..], kind, field);
    }
  }

  lemma FieldIsUnit(m: SampleMetrics, field: Field)
    requires AllUnit(m)
    ensures Unit(Get(m, field))
  {
  }

  lemma MeanIsUnit(discount: nat -> real, samples: seq<Sample>, kind: Kind, field: Field)
    requires forall s | s in samples :: AllUnit(EvaluateSample(discount, s))
    ensures Unit(Mean(discount, samples, kind, field))
  {
    hide EvaluateSample, Total, Count;
    TotalBounds(discount, samples, kind, field);
    if Count(samples, kind) > 0 {
      Quotients(Total(discount, samples, kind, field), Count(samples, kind) as real);
    }
  }

  /** How the groups add up: refusals and answers partition the questions of each sort. */
  lemma {:induction false} CountsPartition(samples: seq<Sample>)
    ensures Count(samples, Failed) + Count(samples, Scored) == |samples|
    ensures Count(samples, RefusalCase) + Count(samples, Supported) == Count(samples, Scored)
    ensures Count(samples, CorrectRefusal) <= Count(samples, Refusal)
    ensures Count(samples, CorrectRefusal) <= Count(samples, RefusalCase)
    ensures Count(samples, SupportedAnswer) <= Count(samples, Supported)
  {
    if samples != [] { CountsPartition(samples[1..]); }
  }

  lemma {:induction false} ClaimsOrdered(samples: seq<Sample>)
    requires forall s | s in samples :: ClaimsAddUp(s)
    ensures 0 <= HallucinatedClaims(samples) <= AssessedClaims(samples)
  {
    if samples != [] {
      assert samples == [samples[0]] + samples[1..];
      assert ClaimsAddUp(samples[0]);
      ClaimsOrdered(samples[1..]);
    }
  }

  /** Every rate of a run lies between 0 and 1, so no range constraint on the stored run fires. */
  lemma AggregatesAreUnit(discount: nat -> real, samples: seq<Sample>)
    requires IsDiscount(discount) && forall s | s in samples :: ClaimsAddUp(s)
    ensures RatesAreUnit(EvaluateSamples(discount, samples))
  {
    hide IsDiscount, Mean, EvaluateSample, Ratio, Count, HallucinatedClaims, AssessedClaims, ClaimsAddUp, AllUnit, Unit;
    forall s | s in samples ensures AllUnit(EvaluateSample(discount, s)) { SampleIsUnit(discount, s); }
    forall kind, field ensures Unit(Mean(discount, samples, kind, field)) {
      MeanIsUnit(discount, samples, kind, field);
    }
    CountsPartition(samples);
    ClaimsOrdered(samples);
    ZeroIsUnit();
    RatioIsUnit(HallucinatedClaims(samples), AssessedClaims(samples), 0.0);
    RatioIsUnit(Count(samples, CorrectRefusal), Count(samples, Refusal), 0.0);
    RatioIsUnit(Count(samples, CorrectRefusal), Count(samples, RefusalCase), 0.0);
    RatioIsUnit(Count(samples, SupportedAnswer), Count(samples, Supported), 0.0);
  }

  lemma {:induction false} TotalMonotonic(discount: nat -> real, samples: seq<Sample>, kind: Kind, field: Field,
                                          other: Field)
    requires forall s | s in samples ::
      Get(EvaluateSample(discount, s), field) <= Get(EvaluateSample(discount, s), other)
    ensures Total(discount, samples, kind, field) <= Total(discount, samples, kind, other)
  {
    hide EvaluateSample, Get;
    if samples != [] {
      assert samples == [samples[0]] + samples[1..];
      assert samples[0] in samples;
      TotalMonotonic(discount, samples[1..], kind, field, other);
    }
  }

  /** Recall over a run does not fall with k either. */
  lemma RunRecallGrows(discount: nat -> real, samples: seq<Sample>)
    ensures var a := EvaluateSamples(discount, samples); a.recallAt1 <= a.recallAt5 <= a.recallAt10
  {
    hide Ratio, Count, HallucinatedClaims, AssessedClaims, Mean, Get, EvaluateSample;
    forall s { RecallGrows(discount, s); }
    MeanMonotonic(discount, samples, Scored, RecallAt1, RecallAt5);
    MeanMonotonic(discount, samples, Scored, RecallAt5, RecallAt10);
  }

  lemma RecallGrows(discount: nat -> real, s: Sample)
    ensures var m := EvaluateSample(discount, s); Get(m, RecallAt1) <= Get(m, RecallAt5) <= Get(m, RecallAt10)
  {
    hide Recall, ReciprocalRank, Ndcg, SetRecall, SetPrecision, CitationRecall, Retrieved, RelevantItems;
    RecallRange(Retrieved(s), RelevantItems(s), 1, 5);
    RecallRange(Retrieved(s), RelevantItems(s), 5, 10);
  }

  lemma MeanMonotonic(discount: nat -> real, samples: seq<Sample>, kind: Kind, field: Field, other: Field)
    requires forall s | s in samples ::
      Get(EvaluateSample(discount, s), field) <= Get(EvaluateSample(discount, s), other)
    ensures Mean(discount, samples, kind, field) <= Mean(discount, samples, kind, other)
  {
    hide EvaluateSample, Get, Total, Count;
    TotalMonotonic(discount, samples, kind, field, other);
    if Count(samples, kind) > 0 {
      QuotientOrder(Total(discount, samples, kind, field), Total(discount, samples, kind, other),
        Count(samples, kind) as real);
    }
  }

  lemma ZeroIsUnit()
    ensures Unit(0.0)
  {
  }

  lemma {:induction false} RefusalTotals(discount: nat -> real, samples: seq<Sample>)
    ensures Total(discount, samples, RefusalCase, UnsupportedAnswer) ==
      (Count(samples, RefusalCase) - Count(samples, CorrectRefusal)) as real
    ensures Total(discount, samples, Scored, RefusalCorrect) ==
      (Count(samples, CorrectRefusal) + Count(samples, SupportedAnswer)) as real
  {
    hide EvaluateSample;
    if samples != [] {
      RefusalTotals(discount, samples[1..]);
      RefusalFields(discount, samples[0]);
    }
  }

  lemma RefusalFields(discount: nat -> real, s: Sample)
    ensures Get(EvaluateSample(discount, s), UnsupportedAnswer) == AsReal(Is(s, RefusalCase) && !Is(s, CorrectRefusal))
    ensures Get(EvaluateSample(discount, s), RefusalCorrect) == AsReal(Is(s, CorrectRefusal) || Is(s, SupportedAnswer))
  {
    hide Hit, Recall, ReciprocalRank, Ndcg, SetRecall, SetPrecision, CitationRecall, AnswerGrounded, Retrieved,
      RelevantItems;
  }

  /**
   The rates about refusals fit together: of the questions to be refused, the share refused and the
   share answered make up all; and the correct verdicts are the correct refusals and the answers to
   supported questions.
   */
  lemma RefusalRatesAddUp(discount: nat -> real, samples: seq<Sample>)
    ensures var a := EvaluateSamples(discount, samples);
      && (Count(samples, RefusalCase) > 0 ==> a.unsupportedAnswerRate + a.refusalRecall == 1.0)
      && a.refusalAccuracy * Count(samples, Scored) as real ==
           a.refusalRecall * Count(samples, RefusalCase) as real
           + a.supportedAnswerRecall * Count(samples, Supported) as real
  {
    hide EvaluateSamples, Count, Ratio;
    RefusalRates(discount, samples);
    CountsPartition(samples);
    var cases, correct := Count(samples, RefusalCase), Count(samples, CorrectRefusal);
    VerdictsAddUp(correct, Count(samples, SupportedAnswer), cases, Count(samples, Supported), Count(samples, Scored));
    if cases > 0 { SharesAddUp(correct, cases); }
  }

  lemma VerdictsAddUp(correct: nat, answered: nat, cases: nat, supported: nat, scored: nat)
    requires correct <= cases && answered <= supported && scored == cases + supported
    ensures Ratio(correct + answered, scored, 0.0) * scored as real ==
      Ratio(correct, cases, 0.0) * cases as real + Ratio(answered, supported, 0.0) * supported as real
  {
    hide Ratio;
    RatioTimes(correct, cases);
    RatioTimes(answered, supported);
    RatioTimes(correct + answered, scored);
  }

  lemma RefusalRates(discount: nat -> real, samples: seq<Sample>)
    ensures var a := EvaluateSamples(discount, samples);
      && a.unsupportedAnswerRate ==
        Ratio(Count(samples, RefusalCase) - Count(samples, CorrectRefusal), Count(samples, RefusalCase), 0.0)
      && a.refusalAccuracy ==
        Ratio(Count(samples, CorrectRefusal) + Count(samples, SupportedAnswer), Count(samples, Scored), 0.0)
      && a.refusalRecall == Ratio(Count(samples, CorrectRefusal), Count(samples, RefusalCase), 0.0)
      && a.supportedAnswerRecall == Ratio(Count(samples, SupportedAnswer), Count(samples, Supported), 0.0)
  {
    hide Count, Total;
    RefusalTotals(discount, samples);
  }

  lemma RatioTimes(a: nat, b: nat)
    requires a <= b
    ensures Ratio(a, b, 0.0) * b as real == a as real
  {
  }

  lemma SharesAddUp(part: nat, whole: nat)
    requires part <= whole && whole > 0
    ensures Ratio(whole - part, whole, 0.0) + Ratio(part, whole, 0.0) == 1.0
  {
    var rest := whole - part;
    assert rest as real + part as real == whole as real;
    QuotientSum(rest as real, part as real, whole as real, whole as real);
  }

  lemma QuotientSum(a: real, b: real, sum: real, c: real)
    requires c > 0.0 && sum == a + b
    ensures a / c + b / c == sum / c
    ensures c / c == 1.0
  {
  }
}
