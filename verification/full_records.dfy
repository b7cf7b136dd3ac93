/** The full biomarker record used when scores are written back into the
    source files. It has the same typed fields as the minimal record, and
    every object additionally keeps its unrecognised JSON keys in `other`, so
    re-serialising loses nothing. Scoring and rule evaluation read a full
    record only through the same accessors as a minimal one, so `other` never
    influences them. */
module FullRecords {
  import Records
  import Models
  import Schema
  import Calculate
  import Engine

  /** A JSON value, standing in for `serde_json::Value`. */
  datatype Json =
    | Null
    | Bool(b: bool)
    | Number(n: real)
    | Str(s: string)
    | Array(items: seq<Json>)
    | Object(members: seq<(string, Json)>)

  datatype FullEvidence = FullEvidence(id: string, database: string, other: Json)

  datatype FullSpecimen = FullSpecimen(id: string, loincCode: string, other: Json)

  datatype FullComponent = FullComponent(
    specimen: seq<FullSpecimen>,
    evidenceSource: seq<FullEvidence>,
    other: Json)

  datatype FullCondition = FullCondition(id: string, other: Json)

  datatype FullBiomarker = FullBiomarker(
    biomarkerId: string,
    components: seq<FullComponent>,
    condition: FullCondition,
    evidenceSource: seq<FullEvidence>,
    other: Json)

  /** The record interface seen from a list of full evidence entries: `id()`
      and `database()` of each entry, in order. */
  function EvidenceView(es: seq<FullEvidence>): (r: seq<Records.Evidence>)
    ensures |r| == |es|
    ensures forall i :: 0 <= i < |es| ==> r[i].id == es[i].id && r[i].database == es[i].database
  {
    seq(|es|, i requires 0 <= i < |es| => Records.Evidence(es[i].id, es[i].database))
  }

  /** The specimens as the record interface exposes them. */
  function SpecimenView(ss: seq<FullSpecimen>): (r: seq<Records.Specimen>)
    ensures |r| == |ss|
    ensures forall i :: 0 <= i < |ss| ==> r[i].id == ss[i].id && r[i].loincCode == ss[i].loincCode
  {
    seq(|ss|, i requires 0 <= i < |ss| => Records.Specimen(ss[i].id, ss[i].loincCode))
  }

  function ComponentOf(c: FullComponent): (r: Records.Component)
    ensures r.specimen == SpecimenView(c.specimen)
    ensures r.evidenceSource == EvidenceView(c.evidenceSource)
  {
    Records.Component(SpecimenView(c.specimen), EvidenceView(c.evidenceSource))
  }

  /** The components as the record interface exposes them. */
  function ComponentView(cs: seq<FullComponent>): (r: seq<Records.Component>)
    ensures |r| == |cs|
    ensures forall i :: 0 <= i < |cs| ==> r[i] == ComponentOf(cs[i])
  {
    seq(|cs|, i requires 0 <= i < |cs| => ComponentOf(cs[i]))
  }

  /** What scoring and rule evaluation read of a full record: its four typed
      fields, with the condition reduced to its id. */
  function View(b: FullBiomarker): (r: Records.Biomarker)
    ensures r.biomarkerId == b.biomarkerId
    ensures r.ConditionId() == b.condition.id
    ensures r.evidenceSource == EvidenceView(b.evidenceSource)
    ensures r.components == ComponentView(b.components)
  {
    Records.Biomarker(
      b.biomarkerId,
      ComponentView(b.components),
      Records.ConditionRef(b.condition.id),
      EvidenceView(b.evidenceSource))
  }

  /** A full record with the given typed fields and no extra keys anywhere. */
  function Embed(m: Records.Biomarker): (r: FullBiomarker)
    ensures r.other == Null && r.condition.other == Null
    ensures |r.components| == |m.components| && |r.evidenceSource| == |m.evidenceSource|
  {
    FullBiomarker(
      m.biomarkerId,
      seq(|m.components|, i requires 0 <= i < |m.components| => EmbedComponent(m.components[i])),
      FullCondition(m.condition.id, Null),
      EmbedEvidence(m.evidenceSource),
      Null)
  }

  function EmbedEvidence(es: seq<Records.Evidence>): (r: seq<FullEvidence>)
    ensures |r| == |es|
    ensures forall i :: 0 <= i < |es| ==> r[i] == FullEvidence(es[i].id, es[i].database, Null)
  {
    seq(|es|, i requires 0 <= i < |es| => FullEvidence(es[i].id, es[i].database, Null))
  }

  function EmbedComponent(c: Records.Component): FullComponent {
    FullComponent(
      seq(|c.specimen|, i requires 0 <= i < |c.specimen| =>
        FullSpecimen(c.specimen[i].id, c.specimen[i].loincCode, Null)),
      EmbedEvidence(c.evidenceSource),
      Null)
  }

  /** The record with every `other` replaced by `Null`: what is left when the
      extra keys are forgotten. */
  function StripOther(b: FullBiomarker): (r: FullBiomarker)
    ensures r.other == Null && r.condition.other == Null
    ensures forall i :: 0 <= i < |r.evidenceSource| ==> r.evidenceSource[i].other == Null
    ensures forall i :: 0 <= i < |r.components| ==> r.components[i].other == Null
    ensures forall i, j :: 0 <= i < |r.components| && 0 <= j < |r.components[i].evidenceSource| ==>
      r.components[i].evidenceSource[j].other == Null
    ensures forall i, j :: 0 <= i < |r.components| && 0 <= j < |r.components[i].specimen| ==>
      r.components[i].specimen[j].other == Null
  {
    Embed(View(b))
  }

  lemma {:induction false} ComponentRoundTrip(c: Records.Component)
    ensures ComponentOf(EmbedComponent(c)) == c
  {
    var e := EmbedComponent(c);
    assert SpecimenView(e.specimen) == c.specimen;
    assert EvidenceView(e.evidenceSource) == c.evidenceSource;
  }

  /** Viewing an embedded record gives back the minimal record: embedding
      adds nothing that the accessors could see. */
  lemma {:induction false} ViewEmbed(m: Records.Biomarker)
    ensures View(Embed(m)) == m
  {
    var e := Embed(m);
    forall i | 0 <= i < |m.components|
      ensures ComponentView(e.components)[i] == m.components[i]
    {
      ComponentRoundTrip(m.components[i]);
    }
    assert ComponentView(e.components) == m.components;
    assert EvidenceView(e.evidenceSource) == m.evidenceSource;
  }

  /** Forgetting the extra keys does not change what the accessors return. */
  lemma {:induction false} ViewIgnoresOther(b: FullBiomarker)
    ensures View(StripOther(b)) == View(b)
  {
    ViewEmbed(View(b));
  }

  /** Two full records that differ only in their extra keys receive the same
      base score and breakdown. */
  lemma {:induction false} ScoreIgnoresOther(a: FullBiomarker, b: FullBiomarker, w: Models.Weights)
    requires StripOther(a) == StripOther(b)
    ensures Calculate.CalculateScore(View(a), w) == Calculate.CalculateScore(View(b), w)
  {
    ViewIgnoresOther(a);
    ViewIgnoresOther(b);
  }

  /** Two full records that differ only in their extra keys get the same
      outcome from the custom rules. */
  lemma {:induction false} RulesIgnoreOther(
    a: FullBiomarker, b: FullBiomarker, rules: Schema.CustomRules, score: real)
    requires StripOther(a) == StripOther(b)
    ensures Engine.ApplyCustomRules(View(a), rules, score) == Engine.ApplyCustomRules(View(b), rules, score)
  {
    ViewIgnoresOther(a);
    ViewIgnoresOther(b);
  }
}
