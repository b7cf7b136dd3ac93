/** The minimal biomarker record: exactly the fields scoring and rule
    evaluation read. The accessors of the record interface are the datatype
    fields themselves, returned verbatim; any case folding or trimming is done
    by the callers. */
module Records {

  datatype Evidence = Evidence(id: string, database: string)

  /** A specimen; an empty `loincCode` means no code is recorded. */
  datatype Specimen = Specimen(id: string, loincCode: string)

  datatype Component = Component(specimen: seq<Specimen>, evidenceSource: seq<Evidence>)

  /** The record's `condition` object. */
  datatype ConditionRef = ConditionRef(id: string)

  datatype Biomarker = Biomarker(
    biomarkerId: string,
    components: seq<Component>,
    condition: ConditionRef,
    evidenceSource: seq<Evidence>)
  {
    /** `condition_id()`: the identifier of the record's condition. */
    function ConditionId(): string {
      condition.id
    }
  }

  /** The evidence of every component, components in order and each
      component's evidence in order (`flat_map` over the components). */
  function ComponentEvidence(cs: seq<Component>): (r: seq<Evidence>)
    ensures forall e :: e in r <==> exists i :: 0 <= i < |cs| && e in cs[i].evidenceSource
  {
    if |cs| == 0 then [] else cs[0].evidenceSource + ComponentEvidence(cs[1..])
  }

  /** The specimens of every component, components in order and each
      component's specimens in order (`flat_map` over the components). */
  function ComponentSpecimens(cs: seq<Component>): (r: seq<Specimen>)
    ensures forall s :: s in r <==> exists i :: 0 <= i < |cs| && s in cs[i].specimen
  {
    if |cs| == 0 then [] else cs[0].specimen + ComponentSpecimens(cs[1..])
  }

  /** Flattening distributes over concatenation of component lists. */
  lemma {:induction false} ComponentEvidenceAppend(a: seq<Component>, b: seq<Component>)
    ensures ComponentEvidence(a + b) == ComponentEvidence(a) + ComponentEvidence(b)
  {
    if |a| > 0 {
      assert (a + b)[1..] == a[1..] + b;
      ComponentEvidenceAppend(a[1..], b);
    } else {
      assert a + b == b;
    }
  }

  /** Flattening the specimens distributes over concatenation of component
      lists. */
  lemma {:induction false} ComponentSpecimensAppend(a: seq<Component>, b: seq<Component>)
    ensures ComponentSpecimens(a + b) == ComponentSpecimens(a) + ComponentSpecimens(b)
  {
    if |a| > 0 {
      assert (a + b)[1..] == a[1..] + b;
      ComponentSpecimensAppend(a[1..], b);
    } else {
      assert a + b == b;
    }
  }

  /** The evidence of component `i` sits, in order, right after the
      evidence of the components before it. */
  lemma ComponentEvidenceAt(cs: seq<Component>, i: nat)
    requires i < |cs|
    ensures ComponentEvidence(cs) ==
      ComponentEvidence(cs[..i]) + cs[i].evidenceSource + ComponentEvidence(cs[i + 1..])
  {
    assert cs == cs[..i] + cs[i..];
    ComponentEvidenceAppend(cs[..i], cs[i..]);
    assert cs[i..][1..] == cs[i + 1..];
  }

  /** The specimens of component `i` sit, in order, right after the
      specimens of the components before it. */
  lemma ComponentSpecimensAt(cs: seq<Component>, i: nat)
    requires i < |cs|
    ensures ComponentSpecimens(cs) ==
      ComponentSpecimens(cs[..i]) + cs[i].specimen + ComponentSpecimens(cs[i + 1..])
  {
    assert cs == cs[..i] + cs[i..];
    ComponentSpecimensAppend(cs[..i], cs[i..]);
    assert cs[i..][1..] == cs[i + 1..];
  }
}
