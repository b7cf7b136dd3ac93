/** The custom-rule language: rules pair a condition over the biomarker
    record with an action on the running score. */
module Schema {
  import opened Base

  /** The record fields a condition can look at. */
  datatype Field =
    | BiomarkerID
    | ComponentEvidenceSourceDatabase
    | ConditionID
    | TopEvidenceSourceDatabase
    | LoincCode
  {
    /** `Field::as_str`: the dotted path of the field in the record. */
    function Path(): string {
      match this
      case BiomarkerID => "biomarker_id"
      case ComponentEvidenceSourceDatabase => "biomarker_component.evidence_source.database"
      case ConditionID => "condition.id"
      case TopEvidenceSourceDatabase => "evidence_source.database"
      case LoincCode => "biomarker_component.specimen.loinc_code"
    }
  }

  /** Distinct fields have distinct paths. */
  lemma PathInjective(f: Field, g: Field)
    ensures f.Path() == g.Path() ==> f == g
  {
    if f != g {
      assert f.Path() != g.Path() by {
        assert |f.Path()| != |g.Path()| || f.Path()[0] != g.Path()[0];
      }
    }
  }

  /** A rule condition. There is no negation; `And`/`Or` nest finitely many
      sub-conditions. `NonPubmedEvidenceSourceMatch` names no field: it
      always looks at the top-level evidence. Length thresholds are reals
      compared with element counts. */
  datatype Condition =
    | NonPubmedEvidenceSourceMatch(source: string)
    | FieldEquals(field: Field, value: string)
    | FieldAllContains(field: Field, value: string)
    | FieldSomeContains(field: Field, value: string)
    | FieldLenGreaterThan(field: Field, threshold: real)
    | FieldLenLessThan(field: Field, threshold: real)
    | FieldLenEqual(field: Field, threshold: real)
    | And(conditions: seq<Condition>)
    | Or(conditions: seq<Condition>)
  {
    /** True for the variants that are not `And`/`Or`. */
    predicate IsLeaf() {
      !And? && !Or?
    }
  }

  /** What a rule does to the score when its condition holds. */
  datatype Action =
    | SetScore(value: real)
    | AddToScore(value: real)
    | MultiplyScore(value: real)
    | SubtractScore(value: real)
    | DivideScore(value: real)

  datatype Rule = Rule(name: string, condition: Condition, action: Action, priority: Int32)

  datatype CustomRules = CustomRules(rules: seq<Rule>)
}
