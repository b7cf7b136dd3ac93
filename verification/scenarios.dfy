/** Worked examples: concrete records, weight tables and rule lists, with the
    outcome the scorer and the rule engine give them. */
module Scenarios {
  import opened Base
  import opened Text
  import opened Records
  import opened Models
  import opened Schema
  import opened Calculate
  import opened Engine

  /** The weights every example without overrides reads. */
  lemma DefaultSettings()
    ensures Effective(NoOverrides) == Settings(1.0, 0.2, 10, 1.0, 0.1, 1.0, -4.0, {"DOID:162"})
  {
    assert (set g | g in Defaults.GENERIC_CONDITIONS) == {"DOID:162"};
  }

  lemma LowerExamples()
    ensures ToLower("PubMed") == "pubmed"
    ensures ToLower(" PubMed ") == " pubmed "
    ensures ToLower("UniProtKB") == "uniprotkb"
  {
  }

  /** Case is ignored when recognising PubMed. */
  lemma PubmedMixedCase()
    ensures IsPubmed("PubMed")
  {
    LowerExamples();
    TrimUnpadded("pubmed");
  }

  /** Surrounding whitespace is ignored when recognising PubMed. */
  lemma PubmedPadded()
    ensures IsPubmed(" PubMed ")
  {
    LowerExamples();
    PaddedTrimSteps();
  }

  lemma PaddedTrimSteps()
    ensures TrimStart(" pubmed ") == "pubmed "
    ensures TrimEnd("pubmed ") == "pubmed"
  {
    TrimStartSpace();
    TrimEndSpace();
  }

  lemma TrimStartSpace()
    ensures TrimStart(" pubmed ") == "pubmed "
  {
    assert IsWhitespace(" pubmed "[0]);
    assert " pubmed "[1..] == "pubmed ";
    assert !IsWhitespace("pubmed "[0]);
  }

  lemma TrimEndSpace()
    ensures TrimEnd("pubmed ") == "pubmed"
  {
    assert "pubmed "[..6] == "pubmed";
  }

  lemma UniProtNotPubmed()
    ensures !IsPubmed("UniProtKB")
  {
    assert ToLower("UniProtKB") == "uniprotkb";
    TrimUnpadded("uniprotkb");
  }

  /** A longer name that starts with "PubMed" is not PubMed. */
  lemma CentralNotPubmed()
    ensures !IsPubmed("PubMed Central")
  {
    assert ToLower("PubMed Central") == "pubmed central";
    TrimUnpadded("pubmed central");
  }

  // ---------------------------------------------------------------------
  // Scoring a record with default weights

  /** One top-level PubMed item "P1" and one component whose specimen has a
      LOINC code, for a given condition. */
  function OnePaper(condition: string): Biomarker {
    Biomarker(
      "AN0001-1",
      [Component([Specimen("UBERON:0001088", "12345-6")], [])],
      ConditionRef(condition),
      [Evidence("P1", "PubMed")])
  }

  lemma OnePaperStream(condition: string)
    ensures Classify(EvidenceStream(OnePaper(condition))) == [Source("P1", true)]
  {
    var b := OnePaper(condition);
    assert ComponentEvidence(b.components) == [] + ComponentEvidence([]);
    PubmedMixedCase();
  }

  lemma SinglePubmedIds()
    ensures DistinctIds([Source("P1", true)], true) == {"P1"}
    ensures DistinctIds([Source("P1", true)], false) == {}
  {
    assert [Source("P1", true)][..0] == [];
  }

  /** The breakdown of `OnePaper`: one first PubMed paper and the LOINC
      bonus, plus the generic-condition penalty when the condition is in the
      default generic list. */
  lemma OnePaperBreakdown(condition: string)
    ensures ExpectedBreakdown(OnePaper(condition), Effective(NoOverrides)) ==
      [ ScoreContribution("first_pmid", 1.0, 1.0),
        ScoreContribution("other_pmid", 0.2, 0.0),
        ScoreContribution("first_source", 1.0, 0.0),
        ScoreContribution("other_source", 0.1, 0.0),
        ScoreContribution("generic_condition_pen", -4.0, if condition == "DOID:162" then 1.0 else 0.0),
        ScoreContribution("loinc", 1.0, 1.0) ]
  {
    var b := OnePaper(condition);
    DefaultSettings();
    OnePaperStream(condition);
    SinglePubmedIds();
    assert AnySpecimenCode(b.components[0].specimen);
  }

  /** With a non-generic condition the record scores 1 (first PubMed) + 1
      (LOINC) = 2. */
  lemma OnePaperScore()
    ensures CalculateScore(OnePaper("DOID:10652"), NoOverrides).score == 2.0
  {
    OnePaperSum("DOID:10652");
    ScoreFromSum(OnePaper("DOID:10652"), NoOverrides, 2.0);
    Round2Exact(2.0);
  }

  /** With the generic condition DOID:162 the sum is 1 + 1 - 4 = -2, which
      is floored at 0. */
  lemma GenericPaperScore()
    ensures CalculateScore(OnePaper("DOID:162"), NoOverrides).score == 0.0
  {
    OnePaperSum("DOID:162");
    ScoreFromSum(OnePaper("DOID:162"), NoOverrides, -2.0);
    Round2Exact(0.0);
  }

  /** The breakdown of `OnePaper` sums to 2, less 4 for the generic
      condition. */
  lemma OnePaperSum(condition: string)
    ensures WeightedSum(ExpectedBreakdown(OnePaper(condition), Effective(NoOverrides))) ==
      if condition == "DOID:162" then -2.0 else 2.0
  {
    var cs := ExpectedBreakdown(OnePaper(condition), Effective(NoOverrides));
    OnePaperBreakdown(condition);
    WeightedSumOfSix(cs);
  }

  /** Replacing the generic-condition list removes the penalty for
      DOID:162: the default list is not kept alongside the given one. */
  lemma ReplacedGenericListScore()
    ensures CalculateScore(OnePaper("DOID:162"), NoOverrides.(genericConditions := Some({"DOID:4"}))).score == 2.0
  {
    var w := NoOverrides.(genericConditions := Some({"DOID:4"}));
    var cs := ExpectedBreakdown(OnePaper("DOID:162"), Effective(w));
    ReplacedGenericBreakdown();
    WeightedSumOfSix(cs);
    ScoreFromSum(OnePaper("DOID:162"), w, 2.0);
    Round2Exact(2.0);
  }

  lemma ReplacedGenericBreakdown()
    ensures ExpectedBreakdown(OnePaper("DOID:162"), Effective(NoOverrides.(genericConditions := Some({"DOID:4"})))) ==
      [ ScoreContribution("first_pmid", 1.0, 1.0),
        ScoreContribution("other_pmid", 0.2, 0.0),
        ScoreContribution("first_source", 1.0, 0.0),
        ScoreContribution("other_source", 0.1, 0.0),
        ScoreContribution("generic_condition_pen", -4.0, 0.0),
        ScoreContribution("loinc", 1.0, 1.0) ]
  {
    var b := OnePaper("DOID:162");
    OnePaperStream("DOID:162");
    SinglePubmedIds();
    assert AnySpecimenCode(b.components[0].specimen);
  }

  /** Under the default weights the PubMed lines of any record contribute
      at most 1 + 9 · 0.2 = 2.8. */
  lemma DefaultPubmedBound(b: Biomarker)
    ensures var cs := CalculateScore(b, NoOverrides).info.contributions;
      cs[0].w * cs[0].f + cs[1].w * cs[1].f <= 2.8
  {
    DefaultSettings();
    PubmedContributionBound(b, Effective(NoOverrides));
  }

  // ---------------------------------------------------------------------
  // Counting distinct evidence

  /** Three PubMed papers at the top level. */
  const ThreePapers := Biomarker(
    "AN0002-1", [], ConditionRef("DOID:10652"),
    [Evidence("P1", "PubMed"), Evidence("P2", "PubMed"), Evidence("P3", "PubMed")])

  lemma ThreePapersStream()
    ensures Classify(EvidenceStream(ThreePapers)) == [Source("P1", true), Source("P2", true), Source("P3", true)]
  {
    assert ComponentEvidence([]) == [];
    PubmedMixedCase();
  }

  lemma ThreePapersIds()
    ensures |DistinctIds(Classify(EvidenceStream(ThreePapers)), true)| == 3
  {
    ThreePapersStream();
    ThreeIds();
  }

  lemma ThreeIds()
    ensures |DistinctIds([Source("P1", true), Source("P2", true), Source("P3", true)], true)| == 3
  {
    var s1, s2, s3 := Source("P1", true), Source("P2", true), Source("P3", true);
    DistinctIdsSnoc([], s1, true);
    DistinctIdsSnoc([s1], s2, true);
    DistinctIdsSnoc([s1, s2], s3, true);
    assert [] + [s1] == [s1] && [s1] + [s2] == [s1, s2] && [s1, s2] + [s3] == [s1, s2, s3];
    assert DistinctIds([s1, s2, s3], true) == {"P1", "P2", "P3"};
  }

  /** Under a PubMed limit of 2 the second paper earns the "other" weight
      and the third earns nothing. */
  lemma PmidLimitTwo()
    ensures CalculateScore(ThreePapers, NoOverrides.(pmidLimit := Some(2))).info.contributions[1].f == 1.0
  {
    ThreePapersUnder(NoOverrides.(pmidLimit := Some(2)));
  }

  /** Under a PubMed limit of 0 no paper after the first earns anything. */
  lemma PmidLimitZero()
    ensures CalculateScore(ThreePapers, NoOverrides.(pmidLimit := Some(0))).info.contributions[1].f == 0.0
  {
    ThreePapersUnder(NoOverrides.(pmidLimit := Some(0)));
  }

  /** Under the default limit of 10 both later papers earn the "other"
      weight. */
  lemma PmidLimitDefault()
    ensures CalculateScore(ThreePapers, NoOverrides).info.contributions[1].f == 2.0
  {
    ThreePapersUnder(NoOverrides);
    assert Effective(NoOverrides).pmidLimit == 10;
  }

  /** Three distinct papers earn `min(3, limit) - 1` "other" weights. */
  lemma ThreePapersUnder(w: Weights)
    ensures CalculateScore(ThreePapers, w).info.contributions[1].f
      == CappedOtherFrequency(3, Effective(w).pmidLimit) as real
  {
    ThreePapersIds();
    PubmedFrequencies(ThreePapers, w);
  }

  /** The same paper at the top level and in a component (under a
      different spelling of the database) is counted once. */
  const RepeatedPaper := Biomarker(
    "AN0003-1", [Component([], [Evidence("P1", "pubmed")])], ConditionRef("DOID:10652"),
    [Evidence("P1", "PubMed")])

  lemma RepeatedPaperCountsOnce()
    ensures var cs := CalculateScore(RepeatedPaper, NoOverrides).info.contributions;
      cs[0].f == 1.0 && cs[1].f == 0.0
  {
    RepeatedPaperIds();
    OnePubmedId(RepeatedPaper, NoOverrides);
  }

  lemma RepeatedPaperIds()
    ensures DistinctIds(Classify(EvidenceStream(RepeatedPaper)), true) == {"P1"}
    ensures |DistinctIds(Classify(EvidenceStream(RepeatedPaper)), true)| == 1
  {
    RepeatedPaperStream();
    RepeatedIds();
  }

  /** A paper listed twice is one distinct identifier. */
  lemma RepeatedIds()
    ensures DistinctIds([Source("P1", true), Source("P1", true)], true) == {"P1"}
    ensures |{"P1"}| == 1
  {
    var x := Source("P1", true);
    DistinctIdsSnoc([], x, true);
    DistinctIdsSnoc([x], x, true);
    assert [] + [x] == [x] && [x] + [x] == [x, x];
  }

  lemma RepeatedPaperStream()
    ensures Classify(EvidenceStream(RepeatedPaper)) == [Source("P1", true), Source("P1", true)]
  {
    PubmedMixedCase();
    LowercasePubmed();
    assert ComponentEvidence(RepeatedPaper.components) == [Evidence("P1", "pubmed")] + ComponentEvidence([]);
  }

  lemma LowercasePubmed()
    ensures IsPubmed("pubmed")
  {
    LowerKeepsLower("pubmed");
    TrimUnpadded("pubmed");
  }

  /** One identifier cited both as a PubMed paper and as another database
      entry counts once in each category. */
  const SharedId := Biomarker(
    "AN0004-1", [], ConditionRef("DOID:10652"),
    [Evidence("X1", "PubMed"), Evidence("X1", "UniProtKB")])

  lemma SharedIdCountsInBoth()
    ensures var cs := CalculateScore(SharedId, NoOverrides).info.contributions;
      cs[0].f == 1.0 && cs[2].f == 1.0 && cs[1].f == 0.0 && cs[3].f == 0.0
  {
    SharedIdIds();
    OnePubmedId(SharedId, NoOverrides);
    OneSourceId(SharedId, NoOverrides);
  }

  lemma SharedIdIds()
    ensures DistinctIds(Classify(EvidenceStream(SharedId)), true) == {"X1"}
    ensures DistinctIds(Classify(EvidenceStream(SharedId)), false) == {"X1"}
    ensures |DistinctIds(Classify(EvidenceStream(SharedId)), true)| == 1
    ensures |DistinctIds(Classify(EvidenceStream(SharedId)), false)| == 1
  {
    SharedIdStream();
    SharedIdsOf(true);
    SharedIdsOf(false);
  }

  /** Each category sees the shared identifier once. */
  lemma SharedIdsOf(pubmed: bool)
    ensures DistinctIds([Source("X1", true), Source("X1", false)], pubmed) == {"X1"}
  {
    var x, y := Source("X1", true), Source("X1", false);
    DistinctIdsSnoc([], x, pubmed);
    DistinctIdsSnoc([x], y, pubmed);
    assert [] + [x] == [x] && [x] + [y] == [x, y];
  }

  lemma SharedIdStream()
    ensures Classify(EvidenceStream(SharedId)) == [Source("X1", true), Source("X1", false)]
  {
    var es := SharedId.evidenceSource;
    assert ComponentEvidence([]) == [];
    assert EvidenceStream(SharedId) == es;
    ClassifyTwo(es);
    PubmedMixedCase();
    UniProtNotPubmed();
  }

  // ---------------------------------------------------------------------
  // Custom rules

  const RuleA := Rule("a", FieldEquals(ConditionID, "DOID:10652"), AddToScore(1.5), 10)
  const RuleB := Rule("b", FieldLenGreaterThan(TopEvidenceSourceDatabase, 0.0), MultiplyScore(2.0), 5)
  const RuleC := Rule("c", Condition.Or([]), SetScore(0.0), 5)

  /** Rules run in ascending priority; B and C share a priority and keep
      their listing order. */
  lemma PriorityOrderExample()
    ensures SortByPriority([RuleA, RuleB, RuleC]) == [RuleB, RuleC, RuleA]
  {
    SortTail();
    SortCons(RuleA, [RuleB, RuleC]);
    InsertA();
  }

  lemma SortTail()
    ensures SortByPriority([RuleB, RuleC]) == [RuleB, RuleC]
  {
    SortCons(RuleC, []);
    assert [RuleC] + [] == [RuleC];
    SortCons(RuleB, [RuleC]);
    assert [RuleB] + [RuleC] == [RuleB, RuleC];
  }

  lemma InsertA()
    ensures InsertByPriority(RuleA, [RuleB, RuleC]) == [RuleB, RuleC, RuleA]
  {
    assert InsertByPriority(RuleA, []) == [RuleA];
    assert [RuleC][1..] == [];
    assert InsertByPriority(RuleA, [RuleC]) == [RuleC, RuleA];
    assert [RuleB, RuleC][1..] == [RuleC];
  }

  /** What each action does to a score of 3. */
  lemma ActionExamples()
    ensures ApplyAction(3.0, SetScore(7.5)) == Ok(Change(7.5, 4.5))
    ensures ApplyAction(3.0, AddToScore(1.5)) == Ok(Change(4.5, 1.5))
    ensures ApplyAction(3.0, MultiplyScore(2.0)) == Ok(Change(6.0, 3.0))
    ensures ApplyAction(3.0, SubtractScore(1.0)) == Ok(Change(2.0, -1.0))
    ensures ApplyAction(3.0, DivideScore(2.0)) == Ok(Change(1.5, -1.5))
    ensures ApplyAction(3.0, DivideScore(0.0)) == Err(DivisionByZero)
  {
  }

  /** On the one-paper record (score 2), B doubles the score to 4, the
      empty `Or` of C never holds, and A then adds 1.5. */
  lemma RuleRunExample()
    ensures ApplyCustomRules(OnePaper("DOID:10652"), CustomRules([RuleA, RuleB, RuleC]), 2.0)
      == Ok(RuleOutcome(5.5, [EntryB, EntryA]))
  {
    PriorityOrderExample();
    RunExample();
  }

  const EntryA := CustomRuleApplication("a", CustomCondition.Simple(RuleA.condition), RuleA.action, 1.5)
  const EntryB := CustomRuleApplication("b", CustomCondition.Simple(RuleB.condition), RuleB.action, 2.0)

  lemma RunExample()
    ensures RunRules(OnePaper("DOID:10652"), [RuleB, RuleC, RuleA], 2.0) == Ok(RuleOutcome(5.5, [EntryB, EntryA]))
  {
    var b := OnePaper("DOID:10652");
    RunLast();
    assert Evaluate(b, RuleB.condition);
    assert !Evaluate(b, RuleC.condition);
    assert [RuleB, RuleC, RuleA][1..] == [RuleC, RuleA];
    assert [RuleC, RuleA][1..] == [RuleA];
    assert RunRules(b, [RuleC, RuleA], 4.0) == RunRules(b, [RuleA], 4.0);
    assert ApplyAction(2.0, RuleB.action) == Ok(Change(4.0, 2.0));
    assert ToCustom(RuleB.condition) == CustomCondition.Simple(RuleB.condition);
    assert [EntryB] + [EntryA] == [EntryB, EntryA];
  }

  lemma RunLast()
    ensures RunRules(OnePaper("DOID:10652"), [RuleA], 4.0) == Ok(RuleOutcome(5.5, [EntryA]))
  {
    var b := OnePaper("DOID:10652");
    assert Evaluate(b, RuleA.condition);
    assert [RuleA][1..] == [];
    assert ApplyAction(4.0, RuleA.action) == Ok(Change(5.5, 1.5));
    assert ToCustom(RuleA.condition) == CustomCondition.Simple(RuleA.condition);
    assert RunRules(b, [], 5.5) == Ok(RuleOutcome(5.5, []));
    assert [EntryA] + [] == [EntryA];
  }

  /** The calculator trims database names but the rule filter does not: a
      top-level item from " PubMed" is PubMed evidence for the score, yet it
      survives the rule's PubMed filter and so makes a match on "UniProtKB"
      fail. */
  lemma PaddedDatabaseDisagreement()
    ensures IsPubmed(" PubMed ")
    ensures !Evaluate(
      Biomarker("AN0005-1", [], ConditionRef("DOID:10652"), [Evidence("P1", " PubMed ")]),
      NonPubmedEvidenceSourceMatch("UniProtKB"))
  {
    PubmedPadded();
    var b := Biomarker("AN0005-1", [], ConditionRef("DOID:10652"), [Evidence("P1", " PubMed ")]);
    LowerExamples();
    assert b.evidenceSource[0] in b.evidenceSource;
  }
}
