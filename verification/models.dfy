/** Weight configuration and the records the scorer reports. The weight
    merge is defined identically in two places of the original code base (a
    current and an older copy); it is modelled once here. */
module Models {
  import opened Base
  import opened Defaults
  import Schema

  /** A (possibly partial) weight table; `None` means "not given". */
  datatype Weights = Weights(
    clinicalUse: Option<Int32>,
    firstPmid: Option<Int32>,
    otherPmid: Option<real>,
    pmidLimit: Option<nat>,
    firstSource: Option<Int32>,
    otherSource: Option<real>,
    loinc: Option<Int32>,
    genericConditionPen: Option<Int32>,
    genericConditions: Option<set<string>>)

  /** Every field of the table is given. */
  predicate Complete(w: Weights) {
    && w.clinicalUse.Some?
    && w.firstPmid.Some?
    && w.otherPmid.Some?
    && w.pmidLimit.Some?
    && w.firstSource.Some?
    && w.otherSource.Some?
    && w.loinc.Some?
    && w.genericConditionPen.Some?
    && w.genericConditions.Some?
  }

  /** The table of no overrides at all. */
  const NoOverrides := Weights(None, None, None, None, None, None, None, None, None)

  /** `Weights::default()`: every field set to its default constant. */
  function DefaultWeights(): (w: Weights)
    ensures Complete(w)
    ensures w.firstPmid.value == 1 && w.otherPmid.value == 0.2 && w.pmidLimit.value == 10
    ensures w.firstSource.value == 1 && w.otherSource.value == 0.1
    ensures w.loinc.value == 1 && w.genericConditionPen.value == -4 && w.clinicalUse.value == 5
    ensures w.genericConditions.value == {"DOID:162"}
  {
    Weights(
      Some(CLINICAL_USE), Some(FIRST_PMID), Some(OTHER_PMID), Some(PMID_LIMIT),
      Some(FIRST_SOURCE), Some(OTHER_SOURCE), Some(LOINC), Some(GENERIC_CONDITION_PEN),
      Some(set s | s in GENERIC_CONDITIONS))
  }

  /** `o.field ?? d.field` for one field. */
  predicate Resolves<T(==)>(merged: Option<T>, given: Option<T>, fallback: Option<T>) {
    merged == if given.Some? then given else fallback
  }

  /** `Weights::with_defaults`: each field independently takes the override's
      value when the override gives one and the default otherwise. A given
      generic-condition set replaces the default set; it is not added to it. */
  function WithDefaults(overrides: Option<Weights>): (r: Weights)
    ensures Complete(r)
    ensures overrides.None? ==> r == DefaultWeights()
    ensures var o := overrides.GetOr(NoOverrides); var d := DefaultWeights();
      && Resolves(r.clinicalUse, o.clinicalUse, d.clinicalUse)
      && Resolves(r.firstPmid, o.firstPmid, d.firstPmid)
      && Resolves(r.otherPmid, o.otherPmid, d.otherPmid)
      && Resolves(r.pmidLimit, o.pmidLimit, d.pmidLimit)
      && Resolves(r.firstSource, o.firstSource, d.firstSource)
      && Resolves(r.otherSource, o.otherSource, d.otherSource)
      && Resolves(r.loinc, o.loinc, d.loinc)
      && Resolves(r.genericConditionPen, o.genericConditionPen, d.genericConditionPen)
      && Resolves(r.genericConditions, o.genericConditions, d.genericConditions)
  {
    var d := DefaultWeights();
    match overrides
    case None => Weights(
      d.clinicalUse, d.firstPmid, d.otherPmid, d.pmidLimit, d.firstSource,
      d.otherSource, d.loinc, d.genericConditionPen, d.genericConditions)
    case Some(w) => Weights(
      w.clinicalUse.Or(d.clinicalUse),
      w.firstPmid.Or(d.firstPmid),
      w.otherPmid.Or(d.otherPmid),
      w.pmidLimit.Or(d.pmidLimit),
      w.firstSource.Or(d.firstSource),
      w.otherSource.Or(d.otherSource),
      w.loinc.Or(d.loinc),
      w.genericConditionPen.Or(d.genericConditionPen),
      w.genericConditions.Or(d.genericConditions))
  }

  /** A complete table is a fixed point of the merge. */
  lemma MergeKeepsComplete(w: Weights)
    requires Complete(w)
    ensures WithDefaults(Some(w)) == w
  {
  }

  /** Merging an already merged table changes nothing. */
  lemma MergeIdempotent(x: Option<Weights>)
    ensures WithDefaults(Some(WithDefaults(x))) == WithDefaults(x)
  {
    MergeKeepsComplete(WithDefaults(x));
  }

  /** An explicitly given generic-condition set, even an empty one, is used
      as is: the default identifier is not added back. */
  lemma GenericConditionsReplaced(o: Weights, g: set<string>)
    requires o.genericConditions == Some(g)
    ensures WithDefaults(Some(o)).genericConditions.value == g
    ensures "DOID:162" !in g ==> "DOID:162" !in WithDefaults(Some(o)).genericConditions.value
  {
  }

  /** One (category, weight, frequency) line of the score breakdown. */
  datatype ScoreContribution = ScoreContribution(c: string, w: real, f: real)

  /** The audit form of a fired rule's condition: the `And`/`Or` tree shape
      is kept and every other condition becomes a `Simple` leaf holding the
      condition it renders. */
  datatype CustomCondition =
    | Simple(leaf: Schema.Condition)
    | And(children: seq<CustomCondition>)
    | Or(children: seq<CustomCondition>)

  /** One audit entry: which rule fired, on what condition, with what action,
      and how much it changed the score. */
  datatype CustomRuleApplication = CustomRuleApplication(
    ruleName: string,
    condition: CustomCondition,
    action: Schema.Action,
    effect: real)
}
