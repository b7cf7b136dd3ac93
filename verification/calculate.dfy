/** The base score: a weighted count of distinct evidence per source
    category, a one-off penalty for generic conditions and a one-off bonus
    for LOINC codes, floored at zero and rounded to hundredths. */
module Calculate {
  import opened Base
  import opened Text
  import opened Defaults
  import opened Records
  import opened Models

  // ---------------------------------------------------------------------
  // Inputs of the formula

  /** Evidence is PubMed evidence when its database, lower-cased and then
      trimmed, is "pubmed"; `IsPubmedSpec` says which names those are. */
  predicate IsPubmed(database: string) {
    Trim(ToLower(database)) == "pubmed"
  }

  /** A database names PubMed exactly when its lower-cased form is "pubmed"
      with nothing but whitespace around it. */
  lemma IsPubmedSpec(database: string)
    ensures IsPubmed(database) <==> exists lo :: TrimmedAt(ToLower(database), "pubmed", lo)
  {
    TrimEquals(ToLower(database), "pubmed");
  }

  /** All evidence of a record: the top-level items, then each component's
      items, components in order. An item is in the stream exactly when it is
      top-level evidence or evidence of some component. */
  function EvidenceStream(b: Biomarker): (r: seq<Evidence>)
    ensures forall e :: e in r <==>
      e in b.evidenceSource || exists i :: 0 <= i < |b.components| && e in b.components[i].evidenceSource
  {
    b.evidenceSource + ComponentEvidence(b.components)
  }

  /** The stream lists the top-level evidence first, then the component
      evidence (whose order `ComponentEvidenceAt` fixes). */
  lemma EvidenceStreamOrder(b: Biomarker)
    ensures var r := EvidenceStream(b);
      && |r| == |b.evidenceSource| + |ComponentEvidence(b.components)|
      && r[..|b.evidenceSource|] == b.evidenceSource
      && r[|b.evidenceSource|..] == ComponentEvidence(b.components)
  {
    var r := EvidenceStream(b);
    assert r[..|b.evidenceSource|] == b.evidenceSource;
    assert r[|b.evidenceSource|..] == ComponentEvidence(b.components);
  }

  /** The weights as the calculation reads them, every absent field
      replaced by its default. */
  datatype Settings = Settings(
    firstPmid: real,
    otherPmid: real,
    pmidLimit: nat,
    firstSource: real,
    otherSource: real,
    loinc: real,
    genericConditionPen: real,
    genericConditions: set<string>)

  /** The `unwrap_or(default)` reads of the calculation. They agree with the
      merged weight table, so it makes no difference whether a table was
      merged with the defaults before scoring. */
  function Effective(w: Weights): (s: Settings)
    ensures var m := WithDefaults(Some(w));
      s == Settings(
        m.firstPmid.value as real, m.otherPmid.value, m.pmidLimit.value,
        m.firstSource.value as real, m.otherSource.value, m.loinc.value as real,
        m.genericConditionPen.value as real, m.genericConditions.value)
  {
    Settings(
      w.firstPmid.GetOr(FIRST_PMID) as real,
      w.otherPmid.GetOr(OTHER_PMID),
      w.pmidLimit.GetOr(PMID_LIMIT),
      w.firstSource.GetOr(FIRST_SOURCE) as real,
      w.otherSource.GetOr(OTHER_SOURCE),
      w.loinc.GetOr(LOINC) as real,
      w.genericConditionPen.GetOr(GENERIC_CONDITION_PEN) as real,
      w.genericConditions.GetOr(set g | g in GENERIC_CONDITIONS))
  }

  // ---------------------------------------------------------------------
  // The counting walk

  /** An evidence identifier together with its category (PubMed or not). */
  datatype Source = Source(id: string, pubmed: bool)

  /** Classifies every evidence item, in order: one source per item, with
      the item's identifier and whether its database names PubMed. */
  function Classify(es: seq<Evidence>): (r: seq<Source>)
    ensures |r| == |es|
    ensures forall i :: 0 <= i < |es| ==> r[i].id == es[i].id && (r[i].pubmed <==> IsPubmed(es[i].database))
  {
    seq(|es|, i requires 0 <= i < |es| => Source(es[i].id, IsPubmed(es[i].database)))
  }

  /** Classification goes item by item, so it distributes over
      concatenation. */
  lemma ClassifyAppend(a: seq<Evidence>, b: seq<Evidence>)
    ensures Classify(a + b) == Classify(a) + Classify(b)
  {
    var l, r := Classify(a + b), Classify(a) + Classify(b);
    forall i | 0 <= i < |a + b|
      ensures l[i] == r[i]
    {
      if i < |a| {
        assert (a + b)[i] == a[i];
      } else {
        assert (a + b)[i] == b[i - |a|];
      }
    }
  }

  /** A two-item list classifies item by item. */
  lemma ClassifyTwo(es: seq<Evidence>)
    requires |es| == 2
    ensures Classify(es) == [Source(es[0].id, IsPubmed(es[0].database)), Source(es[1].id, IsPubmed(es[1].database))]
  {
  }

  /** The state of the walk over the evidence: the identifiers seen per
      category, the four frequency counters and the running score. */
  datatype Tally = Tally(
    pmids: set<string>,
    sources: set<string>,
    firstPmid: nat,
    otherPmid: nat,
    firstSource: nat,
    otherSource: nat,
    score: real)

  const Start := Tally({}, {}, 0, 0, 0, 0, 0.0)

  /** One iteration of the loop: a new identifier is recorded in its
      category; the first one earns the "first" weight, later PubMed ones
      earn `otherPmid` while the PubMed set is no larger than the limit, and
      later other-source ones always earn `otherSource`. A repeated
      identifier changes nothing. */
  function Step(t: Tally, x: Source, s: Settings): (r: Tally)
    ensures x.id in (if x.pubmed then t.pmids else t.sources) ==> r == t
    ensures t.firstPmid <= r.firstPmid && t.otherPmid <= r.otherPmid
    ensures t.firstSource <= r.firstSource && t.otherSource <= r.otherSource
    ensures r.firstPmid + r.otherPmid + r.firstSource + r.otherSource
      <= t.firstPmid + t.otherPmid + t.firstSource + t.otherSource + 1
  {
    if x.pubmed then
      if x.id in t.pmids then t
      else
        var seen := t.pmids + {x.id};
        if |seen| == 1 then
          t.(pmids := seen, firstPmid := t.firstPmid + 1, score := t.score + s.firstPmid)
        else if |seen| <= s.pmidLimit then
          t.(pmids := seen, otherPmid := t.otherPmid + 1, score := t.score + s.otherPmid)
        else
          t.(pmids := seen)
    else
      if x.id in t.sources then t
      else
        var seen := t.sources + {x.id};
        if |seen| == 1 then
          t.(sources := seen, firstSource := t.firstSource + 1, score := t.score + s.firstSource)
        else
          t.(sources := seen, otherSource := t.otherSource + 1, score := t.score + s.otherSource)
  }

  /** The loop over the classified evidence, first item first. It computes
      the closed form: the seen sets are the distinct identifiers per
      category, the frequencies are `min(1, n)`, `max(0, min(n, limit) - 1)`
      for PubMed and `min(1, m)`, `max(0, m - 1)` for other sources, where n
      and m count those identifiers, and the running score is the weighted
      sum of the frequencies. */
  function Walk(xs: seq<Source>, s: Settings): (r: Tally)
    decreases |xs|
    ensures ClosedForm(xs, s, r)
  {
    if |xs| == 0 then Start
    else
      var t := Walk(xs[..|xs| - 1], s);
      StepKeepsClosedForm(xs, s, t);
      Step(t, xs[|xs| - 1], s)
  }

  // ---------------------------------------------------------------------
  // Closed form of the walk

  /** The distinct identifiers of one category, collected item by item. */
  function DistinctIds(xs: seq<Source>, pubmed: bool): set<string>
    decreases |xs|
  {
    if |xs| == 0 then {}
    else
      var last := xs[|xs| - 1];
      DistinctIds(xs[..|xs| - 1], pubmed) + (if last.pubmed == pubmed then {last.id} else {})
  }

  /** An identifier is among the distinct identifiers of a category exactly
      when some item of that category carries it. */
  lemma {:induction false} DistinctIdsMembers(xs: seq<Source>, pubmed: bool, y: string)
    decreases |xs|
    ensures y in DistinctIds(xs, pubmed) <==> exists i :: 0 <= i < |xs| && xs[i] == Source(y, pubmed)
  {
    if |xs| > 0 {
      var init := xs[..|xs| - 1];
      DistinctIdsMembers(init, pubmed, y);
      if y in DistinctIds(init, pubmed) {
        var i :| 0 <= i < |init| && init[i] == Source(y, pubmed);
        assert xs[i] == init[i];
      }
      if i :| 0 <= i < |xs| && xs[i] == Source(y, pubmed) {
        if i < |xs| - 1 {
          assert init[i] == xs[i];
        }
      }
    }
  }

  /** At most one "first" per category: `min(1, n)`. */
  function FirstFrequency(n: nat): nat {
    if n == 0 then 0 else 1
  }

  /** `max(0, min(n, limit) - 1)`. */
  function CappedOtherFrequency(n: nat, limit: nat): nat {
    if MinNat(n, limit) <= 1 then 0 else MinNat(n, limit) - 1
  }

  /** `max(0, n - 1)`. */
  function OtherFrequency(n: nat): nat {
    if n == 0 then 0 else n - 1
  }

  /** Σ w·f over the four evidence counters of a tally. */
  function Weighted(t: Tally, s: Settings): real {
    s.firstPmid * t.firstPmid as real + s.otherPmid * t.otherPmid as real
    + s.firstSource * t.firstSource as real + s.otherSource * t.otherSource as real
  }

  /** The counters a tally holds, given how many distinct identifiers of
      each category it has seen. */
  predicate CountsFor(t: Tally, s: Settings) {
    && t.firstPmid == FirstFrequency(|t.pmids|)
    && t.otherPmid == CappedOtherFrequency(|t.pmids|, s.pmidLimit)
    && t.firstSource == FirstFrequency(|t.sources|)
    && t.otherSource == OtherFrequency(|t.sources|)
  }

  /** What the walk over `xs` ends with, stated over the distinct
      identifiers alone. */
  predicate ClosedForm(xs: seq<Source>, s: Settings, t: Tally) {
    && t.pmids == DistinctIds(xs, true)
    && t.sources == DistinctIds(xs, false)
    && CountsFor(t, s)
    && t.score == Weighted(t, s)
  }

  lemma DistinctIdsSnoc(xs: seq<Source>, x: Source, pubmed: bool)
    ensures DistinctIds(xs + [x], pubmed) ==
      DistinctIds(xs, pubmed) + (if x.pubmed == pubmed then {x.id} else {})
  {
    assert (xs + [x])[..|xs|] == xs;
  }

  /** Each step adds to the running score exactly the weight of the counter
      it increments. */
  lemma {:induction false} StepKeepsScoreWeighted(t: Tally, x: Source, s: Settings)
    requires t.score == Weighted(t, s)
    ensures Step(t, x, s).score == Weighted(Step(t, x, s), s)
  {
    if x.pubmed && x.id !in t.pmids {
      var n := |t.pmids + {x.id}|;
      if n == 1 {
        ScaleSucc(s.firstPmid, t.firstPmid);
      } else if n <= s.pmidLimit {
        ScaleSucc(s.otherPmid, t.otherPmid);
      }
    } else if !x.pubmed && x.id !in t.sources {
      if |t.sources + {x.id}| == 1 {
        ScaleSucc(s.firstSource, t.firstSource);
      } else {
        ScaleSucc(s.otherSource, t.otherSource);
      }
    }
  }

  /** One more occurrence adds one more weight. */
  lemma ScaleSucc(w: real, n: nat)
    ensures w * (n + 1) as real == w * n as real + w
  {
  }

  /** Each step records the item's identifier in its own category. */
  lemma StepRecordsId(t: Tally, x: Source, s: Settings)
    ensures Step(t, x, s).pmids == t.pmids + (if x.pubmed then {x.id} else {})
    ensures Step(t, x, s).sources == t.sources + (if x.pubmed then {} else {x.id})
  {
    StepRecordsPmid(t, x, s);
    StepRecordsSource(t, x, s);
  }

  /** A step adds a PubMed item's identifier to the PubMed set and leaves
      that set alone otherwise. */
  lemma StepRecordsPmid(t: Tally, x: Source, s: Settings)
    ensures Step(t, x, s).pmids == t.pmids + (if x.pubmed then {x.id} else {})
  {
    if !x.pubmed {
      assert Step(t, x, s).pmids == t.pmids;
    }
  }

  /** A step adds another source's identifier to the source set and leaves
      that set alone otherwise. */
  lemma StepRecordsSource(t: Tally, x: Source, s: Settings)
    ensures Step(t, x, s).sources == t.sources + (if x.pubmed then {} else {x.id})
  {
    if x.pubmed {
      assert Step(t, x, s).sources == t.sources;
    }
  }

  /** Each step keeps the counters equal to their closed form. */
  lemma {:induction false} StepKeepsCounts(t: Tally, x: Source, s: Settings)
    requires CountsFor(t, s)
    ensures CountsFor(Step(t, x, s), s)
  {
    if x.pubmed && x.id !in t.pmids {
      assert |t.pmids + {x.id}| == |t.pmids| + 1;
    } else if !x.pubmed && x.id !in t.sources {
      assert |t.sources + {x.id}| == |t.sources| + 1;
    }
  }

  /** One step from a tally in closed form for all but the last item gives
      the closed form for all items. */
  lemma {:induction false} StepKeepsClosedForm(xs: seq<Source>, s: Settings, t: Tally)
    requires |xs| > 0
    requires ClosedForm(xs[..|xs| - 1], s, t)
    ensures ClosedForm(xs, s, Step(t, xs[|xs| - 1], s))
  {
    var x := xs[|xs| - 1];
    assert DistinctIds(xs, true) == t.pmids + (if x.pubmed then {x.id} else {});
    assert DistinctIds(xs, false) == t.sources + (if x.pubmed then {} else {x.id});
    StepRecordsId(t, x, s);
    StepKeepsCounts(t, x, s);
    StepKeepsScoreWeighted(t, x, s);
  }

  /** A repeated identifier adds nothing, wherever the repetition occurs
      (for instance a component repeating a top-level PubMed identifier). */
  lemma {:induction false} DuplicateAddsNothing(xs: seq<Source>, x: Source, s: Settings)
    requires x.id in DistinctIds(xs, x.pubmed)
    ensures Walk(xs + [x], s) == Walk(xs, s)
  {
    assert (xs + [x])[..|xs|] == xs;
  }

  /** The outcome of the walk depends only on the sets of distinct
      identifiers per category, not on order or repetition. */
  lemma {:induction false} WalkDependsOnlyOnDistinctIds(xs1: seq<Source>, xs2: seq<Source>, s: Settings)
    requires DistinctIds(xs1, true) == DistinctIds(xs2, true)
    requires DistinctIds(xs1, false) == DistinctIds(xs2, false)
    ensures Walk(xs1, s) == Walk(xs2, s)
  {
    TallyDeterminedBySeenSets(Walk(xs1, s), Walk(xs2, s), s);
  }

  /** A tally whose counters and score are in closed form is determined by
      its two sets of seen identifiers. */
  lemma TallyDeterminedBySeenSets(t1: Tally, t2: Tally, s: Settings)
    requires CountsFor(t1, s) && t1.score == Weighted(t1, s)
    requires CountsFor(t2, s) && t2.score == Weighted(t2, s)
    requires t1.pmids == t2.pmids && t1.sources == t2.sources
    ensures t1 == t2
  {
  }

  /** A category has a "first" exactly when it has some evidence. */
  lemma {:induction false} FirstFrequencyIffPresent(es: seq<Evidence>, pubmed: bool)
    ensures FirstFrequency(|DistinctIds(Classify(es), pubmed)|) <= 1
    ensures FirstFrequency(|DistinctIds(Classify(es), pubmed)|) == 1 <==>
      exists i :: 0 <= i < |es| && IsPubmed(es[i].database) == pubmed
  {
    var xs := Classify(es);
    if i :| 0 <= i < |es| && IsPubmed(es[i].database) == pubmed {
      DistinctIdsMembers(xs, pubmed, xs[i].id);
    }
    if |DistinctIds(xs, pubmed)| > 0 {
      var y :| y in DistinctIds(xs, pubmed);
      DistinctIdsMembers(xs, pubmed, y);
      var i :| 0 <= i < |xs| && xs[i] == Source(y, pubmed);
      assert IsPubmed(es[i].database) == pubmed;
    }
  }

  // ---------------------------------------------------------------------
  // LOINC presence

  /** Some specimen carries a non-empty LOINC code. */
  function AnySpecimenCode(ss: seq<Specimen>): (r: bool)
    ensures r <==> exists j :: 0 <= j < |ss| && ss[j].loincCode != ""
  {
    |ss| > 0 && (ss[0].loincCode != "" || AnySpecimenCode(ss[1..]))
  }

  /** Some specimen of some component carries a non-empty LOINC code. */
  function AnyComponentCode(cs: seq<Component>): (r: bool)
    ensures r <==> exists i :: 0 <= i < |cs| && AnySpecimenCode(cs[i].specimen)
  {
    |cs| > 0 && (AnySpecimenCode(cs[0].specimen) || AnyComponentCode(cs[1..]))
  }

  // ---------------------------------------------------------------------
  // Rounding and the breakdown

  /** Rounds a non-negative value to hundredths, halves rounding up. */
  function Round2(x: real): (r: real)
    requires x >= 0.0
    ensures r >= 0.0
    ensures x - 0.005 < r <= x + 0.005
    ensures (r * 100.0).Floor as real == r * 100.0
  {
    var k := (x * 100.0 + 0.5).Floor;
    assert k as real / 100.0 * 100.0 == k as real;
    k as real / 100.0
  }

  /** A whole number of hundredths is kept as is. */
  lemma Round2Exact(x: real)
    requires x >= 0.0
    requires (x * 100.0).Floor as real == x * 100.0
    ensures Round2(x) == x
  {
    var k := (x * 100.0).Floor;
    assert x * 100.0 + 0.5 == k as real + 0.5;
    assert (x * 100.0 + 0.5).Floor == k;
  }

  /** Rounding is idempotent. */
  lemma Round2Idempotent(x: real)
    requires x >= 0.0
    ensures Round2(Round2(x)) == Round2(x)
  {
    Round2Exact(Round2(x));
  }

  /** Σ w·f over the breakdown. */
  function WeightedSum(cs: seq<ScoreContribution>): real {
    if |cs| == 0 then 0.0 else cs[0].w * cs[0].f + WeightedSum(cs[1..])
  }

  lemma WeightedSumOfSix(cs: seq<ScoreContribution>)
    requires |cs| == 6
    ensures WeightedSum(cs) == cs[0].w * cs[0].f + cs[1].w * cs[1].f + cs[2].w * cs[2].f
                               + cs[3].w * cs[3].f + cs[4].w * cs[4].f + cs[5].w * cs[5].f
  {
    assert WeightedSum(cs[5..]) == cs[5].w * cs[5].f + WeightedSum(cs[6..]);
    assert WeightedSum(cs[4..]) == cs[4].w * cs[4].f + WeightedSum(cs[5..]);
    assert WeightedSum(cs[3..]) == cs[3].w * cs[3].f + WeightedSum(cs[4..]);
    assert WeightedSum(cs[2..]) == cs[2].w * cs[2].f + WeightedSum(cs[3..]);
    assert WeightedSum(cs[1..]) == cs[1].w * cs[1].f + WeightedSum(cs[2..]);
  }

  datatype ScoreInfo = ScoreInfo(contributions: seq<ScoreContribution>)

  datatype Scored = Scored(score: real, info: ScoreInfo)

  /** The six categories of the breakdown, in the order they are reported. */
  const Categories: seq<string> :=
    ["first_pmid", "other_pmid", "first_source", "other_source", "generic_condition_pen", "loinc"]

  /** The breakdown the closed form predicts for a record. */
  function ExpectedBreakdown(b: Biomarker, s: Settings): seq<ScoreContribution> {
    var xs := Classify(EvidenceStream(b));
    ClosedBreakdown(
      s, |DistinctIds(xs, true)|, |DistinctIds(xs, false)|,
      b.ConditionId() in s.genericConditions,
      exists i :: 0 <= i < |b.components| && AnySpecimenCode(b.components[i].specimen))
  }

  /** The six lines for `p` distinct PubMed identifiers, `o` distinct other
      identifiers and the two flags. */
  function ClosedBreakdown(s: Settings, p: nat, o: nat, generic: bool, loinc: bool): seq<ScoreContribution> {
    [ ScoreContribution("first_pmid", s.firstPmid, FirstFrequency(p) as real),
      ScoreContribution("other_pmid", s.otherPmid, CappedOtherFrequency(p, s.pmidLimit) as real),
      ScoreContribution("first_source", s.firstSource, FirstFrequency(o) as real),
      ScoreContribution("other_source", s.otherSource, OtherFrequency(o) as real),
      ScoreContribution("generic_condition_pen", s.genericConditionPen, if generic then 1.0 else 0.0),
      ScoreContribution("loinc", s.loinc, if loinc then 1.0 else 0.0) ]
  }

  /** The six contribution lines for a finished walk and the two flags. */
  function Breakdown(s: Settings, t: Tally, generic: bool, loinc: bool): seq<ScoreContribution> {
    [ ScoreContribution("first_pmid", s.firstPmid, t.firstPmid as real),
      ScoreContribution("other_pmid", s.otherPmid, t.otherPmid as real),
      ScoreContribution("first_source", s.firstSource, t.firstSource as real),
      ScoreContribution("other_source", s.otherSource, t.otherSource as real),
      ScoreContribution("generic_condition_pen", s.genericConditionPen, if generic then 1.0 else 0.0),
      ScoreContribution("loinc", s.loinc, if loinc then 1.0 else 0.0) ]
  }

  /** The lines of a breakdown are labelled with the six categories, in
      order. */
  lemma BreakdownCategories(s: Settings, t: Tally, generic: bool, loinc: bool)
    ensures forall i :: 0 <= i < 6 ==> Breakdown(s, t, generic, loinc)[i].c == Categories[i]
  {
    var cs := Breakdown(s, t, generic, loinc);
    assert cs[0].c == Categories[0] && cs[1].c == Categories[1] && cs[2].c == Categories[2];
    assert cs[3].c == Categories[3] && cs[4].c == Categories[4] && cs[5].c == Categories[5];
  }

  /** The accumulated score equals Σ w·f over the breakdown. */
  lemma BreakdownSum(s: Settings, t: Tally, generic: bool, loinc: bool)
    requires t.score == Weighted(t, s)
    ensures WeightedSum(Breakdown(s, t, generic, loinc)) ==
      t.score + (if generic then s.genericConditionPen else 0.0) + (if loinc then s.loinc else 0.0)
  {
    var cs := Breakdown(s, t, generic, loinc);
    WeightedSumOfSix(cs);
    assert cs[4].w * cs[4].f == if generic then s.genericConditionPen else 0.0;
    assert cs[5].w * cs[5].f == if loinc then s.loinc else 0.0;
  }

  /** `calculate_score`: the six-line breakdown is the closed form of the
      counting loop, and the score is Σ w·f over it, floored at zero and
      rounded to hundredths, so it is never negative. */
  function CalculateScore(b: Biomarker, w: Weights): (r: Scored)
    ensures r.score >= 0.0
    ensures |r.info.contributions| == 6
    ensures forall i :: 0 <= i < 6 ==> r.info.contributions[i].c == Categories[i]
    ensures r.info.contributions == ExpectedBreakdown(b, Effective(w))
    ensures r.score == Round2(MaxReal(0.0, WeightedSum(r.info.contributions)))
  {
    ScoringBreakdown(b, Effective(w));
    Scoring(b, Effective(w))
  }

  /** The body of `calculate_score` once the weights are read: the loop,
      the penalty and bonus checks, and the six pushes. */
  function Scoring(b: Biomarker, s: Settings): Scored {
    var t := Walk(Classify(EvidenceStream(b)), s);
    Report(s, t, b.ConditionId() in s.genericConditions, AnyComponentCode(b.components))
  }

  /** What `calculate_score` returns once the loop has produced `t`: the
      walk's score plus the penalty and the bonus, floored and rounded, and
      the six pushed lines. */
  function Report(s: Settings, t: Tally, generic: bool, loinc: bool): Scored {
    var score := t.score
      + (if generic then s.genericConditionPen else 0.0)
      + (if loinc then s.loinc else 0.0);
    Scored(Round2(MaxReal(0.0, score)), ScoreInfo(Breakdown(s, t, generic, loinc)))
  }

  /** When the walk's score is the weighted sum of its counters, the
      reported lines are labelled with the six categories in order and the
      reported score is their Σ w·f, floored and rounded. */
  lemma ReportSum(s: Settings, t: Tally, generic: bool, loinc: bool)
    requires t.score == Weighted(t, s)
    ensures var r := Report(s, t, generic, loinc);
      && |r.info.contributions| == 6
      && (forall i :: 0 <= i < 6 ==> r.info.contributions[i].c == Categories[i])
      && r.score == Round2(MaxReal(0.0, WeightedSum(r.info.contributions)))
  {
    BreakdownSum(s, t, generic, loinc);
    BreakdownCategories(s, t, generic, loinc);
  }

  /** The breakdown `Scoring` reports is the closed-form breakdown, labelled
      with the six categories in order, and the score is its floored and
      rounded weighted sum. */
  lemma ScoringBreakdown(b: Biomarker, s: Settings)
    ensures var r := Scoring(b, s);
      && |r.info.contributions| == 6
      && (forall i :: 0 <= i < 6 ==> r.info.contributions[i].c == Categories[i])
      && r.info.contributions == ExpectedBreakdown(b, s)
      && r.score == Round2(MaxReal(0.0, WeightedSum(r.info.contributions)))
  {
    var t := Walk(Classify(EvidenceStream(b)), s);
    var generic := b.ConditionId() in s.genericConditions;
    var loinc := AnyComponentCode(b.components);
    WalkBreakdown(b, s);
    ReportSum(s, t, generic, loinc);
  }

  /** The breakdown of the walk over a record's evidence is the closed-form
      breakdown, and its weighted sum is the walk's score plus the penalty
      and the bonus. */
  lemma {:induction false} WalkBreakdown(b: Biomarker, s: Settings)
    ensures var t := Walk(Classify(EvidenceStream(b)), s);
      var generic := b.ConditionId() in s.genericConditions;
      var loinc := AnyComponentCode(b.components);
      && Breakdown(s, t, generic, loinc) == ExpectedBreakdown(b, s)
      && WeightedSum(ExpectedBreakdown(b, s)) ==
         t.score + (if generic then s.genericConditionPen else 0.0) + (if loinc then s.loinc else 0.0)
  {
    var xs := Classify(EvidenceStream(b));
    var t := Walk(xs, s);
    var generic := b.ConditionId() in s.genericConditions;
    var loinc := AnyComponentCode(b.components);
    BreakdownSum(s, t, generic, loinc);
  }

  /** The two PubMed frequencies of the breakdown depend only on the number
      of distinct PubMed identifiers and the limit. */
  lemma PubmedFrequencies(b: Biomarker, w: Weights)
    ensures var p := |DistinctIds(Classify(EvidenceStream(b)), true)|;
      var cs := CalculateScore(b, w).info.contributions;
      cs[0].f == FirstFrequency(p) as real && cs[1].f == CappedOtherFrequency(p, Effective(w).pmidLimit) as real
  {
  }

  /** The two other-source frequencies of the breakdown depend only on the
      number of distinct other identifiers. */
  lemma SourceFrequencies(b: Biomarker, w: Weights)
    ensures var o := |DistinctIds(Classify(EvidenceStream(b)), false)|;
      var cs := CalculateScore(b, w).info.contributions;
      cs[2].f == FirstFrequency(o) as real && cs[3].f == OtherFrequency(o) as real
  {
  }

  /** A record with exactly one distinct PubMed identifier earns the first
      PubMed weight once and no "other" PubMed weight. */
  lemma OnePubmedId(b: Biomarker, w: Weights)
    ensures var cs := CalculateScore(b, w).info.contributions;
      |DistinctIds(Classify(EvidenceStream(b)), true)| == 1 ==> cs[0].f == 1.0 && cs[1].f == 0.0
  {
    PubmedFrequencies(b, w);
  }

  /** A record with exactly one distinct identifier from other databases
      earns the first source weight once and no "other" source weight. */
  lemma OneSourceId(b: Biomarker, w: Weights)
    ensures var cs := CalculateScore(b, w).info.contributions;
      |DistinctIds(Classify(EvidenceStream(b)), false)| == 1 ==> cs[2].f == 1.0 && cs[3].f == 0.0
  {
    SourceFrequencies(b, w);
  }

  /** The score is the floored and rounded sum of the closed-form
      breakdown. */
  lemma ScoreFromSum(b: Biomarker, w: Weights, total: real)
    requires WeightedSum(ExpectedBreakdown(b, Effective(w))) == total
    ensures CalculateScore(b, w).score == Round2(MaxReal(0.0, total))
  {
  }

  /** Scoring with a table merged with the defaults is scoring with the
      table itself. */
  lemma ScoreIgnoresMerge(b: Biomarker, w: Weights)
    ensures CalculateScore(b, WithDefaults(Some(w))) == CalculateScore(b, w)
  {
    MergeIdempotent(Some(w));
  }

  /** The clinical-use weight never influences the score. */
  lemma ScoreIgnoresClinicalUse(b: Biomarker, w: Weights, u: Option<Int32>)
    ensures CalculateScore(b, w.(clinicalUse := u)) == CalculateScore(b, w)
  {
  }

  /** With non-negative PubMed weights, the two PubMed lines of the
      breakdown together contribute at most one "first" weight plus
      `OtherCap(limit)` = max(0, limit - 1) "other" weights, however much
      PubMed evidence there is. */
  lemma PubmedContributionBound(b: Biomarker, s: Settings)
    requires s.firstPmid >= 0.0 && s.otherPmid >= 0.0
    ensures PubmedPart(ExpectedBreakdown(b, s)) <= s.firstPmid + s.otherPmid * OtherCap(s.pmidLimit) as real
  {
    var xs := Classify(EvidenceStream(b));
    PubmedLinesBound(
      s, |DistinctIds(xs, true)|, |DistinctIds(xs, false)|,
      b.ConditionId() in s.genericConditions,
      exists i :: 0 <= i < |b.components| && AnySpecimenCode(b.components[i].specimen));
  }

  /** What the two PubMed lines of a breakdown contribute to its sum. */
  function PubmedPart(cs: seq<ScoreContribution>): real
    requires |cs| >= 2
  {
    cs[0].w * cs[0].f + cs[1].w * cs[1].f
  }

  /** The most "other" PubMed items that can earn weight under a limit. */
  function OtherCap(limit: nat): nat {
    if limit == 0 then 0 else limit - 1
  }

  /** The bound for the closed-form breakdown of `p` distinct PubMed
      identifiers, whatever the other counts and flags. */
  lemma PubmedLinesBound(s: Settings, p: nat, o: nat, generic: bool, loinc: bool)
    requires s.firstPmid >= 0.0 && s.otherPmid >= 0.0
    ensures PubmedPart(ClosedBreakdown(s, p, o, generic, loinc))
      <= s.firstPmid + s.otherPmid * OtherCap(s.pmidLimit) as real
  {
    var cs := ClosedBreakdown(s, p, o, generic, loinc);
    PubmedTermsBound(s, p, cs[0].w, cs[0].f, cs[1].w, cs[1].f);
  }

  /** The two PubMed terms for `p` distinct identifiers are bounded by one
      "first" weight and `OtherCap` "other" weights. */
  lemma PubmedTermsBound(s: Settings, p: nat, w0: real, f0: real, w1: real, f1: real)
    requires s.firstPmid >= 0.0 && s.otherPmid >= 0.0
    requires w0 == s.firstPmid && f0 == FirstFrequency(p) as real
    requires w1 == s.otherPmid && f1 == CappedOtherFrequency(p, s.pmidLimit) as real
    ensures w0 * f0 + w1 * f1 <= s.firstPmid + s.otherPmid * OtherCap(s.pmidLimit) as real
  {
    var m := OtherCap(s.pmidLimit);
    assert CappedOtherFrequency(p, s.pmidLimit) <= m;
    assert w0 * f0 <= s.firstPmid * 1.0;
    assert w1 * f1 <= s.otherPmid * m as real;
  }
}
