/** The custom-rule engine: rules are stably sorted by priority, each rule's
    condition is evaluated against the biomarker record alone, and the
    action of every rule whose condition holds transforms the running score
    and leaves an audit entry with the change it made. */
module Engine {
  import opened Base
  import opened Text
  import opened Records
  import opened Schema
  import opened Models

  // ---------------------------------------------------------------------
  // Field projection

  /** The database name of each evidence item, in order. */
  function Databases(es: seq<Evidence>): (r: seq<string>)
    ensures |r| == |es|
    ensures forall i :: 0 <= i < |es| ==> r[i] == es[i].database
  {
    seq(|es|, i requires 0 <= i < |es| => es[i].database)
  }

  /** The LOINC code of each specimen, in order, empty codes included. */
  function LoincCodes(ss: seq<Specimen>): (r: seq<string>)
    ensures |r| == |ss|
    ensures forall i :: 0 <= i < |ss| ==> r[i] == ss[i].loincCode
  {
    seq(|ss|, i requires 0 <= i < |ss| => ss[i].loincCode)
  }

  /** The values a field denotes in a record, in record order and without
      deduplication: the identifier fields denote exactly one value, the
      top-level database field one name per top-level evidence item, and the
      component fields one name per flattened component evidence item and
      one code per flattened specimen, repeats kept (the flattening order is
      fixed by `ComponentEvidenceAt` and `ComponentSpecimensAt`). */
  function MatchField(b: Biomarker, f: Field): (r: seq<string>)
    ensures f.BiomarkerID? ==> r == [b.biomarkerId]
    ensures f.ConditionID? ==> r == [b.ConditionId()]
    ensures f.TopEvidenceSourceDatabase? ==>
      |r| == |b.evidenceSource| && forall i :: 0 <= i < |r| ==> r[i] == b.evidenceSource[i].database
    ensures f.ComponentEvidenceSourceDatabase? ==>
      |r| == |ComponentEvidence(b.components)|
      && forall k :: 0 <= k < |r| ==> r[k] == ComponentEvidence(b.components)[k].database
    ensures f.ComponentEvidenceSourceDatabase? ==> forall v :: v in r <==>
      exists i, j :: 0 <= i < |b.components| && 0 <= j < |b.components[i].evidenceSource|
        && b.components[i].evidenceSource[j].database == v
    ensures f.LoincCode? ==>
      |r| == |ComponentSpecimens(b.components)|
      && forall k :: 0 <= k < |r| ==> r[k] == ComponentSpecimens(b.components)[k].loincCode
    ensures f.LoincCode? ==> forall v :: v in r <==>
      exists i, j :: 0 <= i < |b.components| && 0 <= j < |b.components[i].specimen|
        && b.components[i].specimen[j].loincCode == v
  {
    match f
    case BiomarkerID => [b.biomarkerId]
    case ComponentEvidenceSourceDatabase =>
      ComponentDatabases(b.components);
      Databases(ComponentEvidence(b.components))
    case ConditionID => [b.ConditionId()]
    case TopEvidenceSourceDatabase => Databases(b.evidenceSource)
    case LoincCode =>
      ComponentCodes(b.components);
      LoincCodes(ComponentSpecimens(b.components))
  }

  /** A database name is projected from the component evidence exactly
      when some evidence item of some component carries it. */
  lemma ComponentDatabases(cs: seq<Component>)
    ensures forall v :: v in Databases(ComponentEvidence(cs)) <==>
      exists i, j :: 0 <= i < |cs| && 0 <= j < |cs[i].evidenceSource| && cs[i].evidenceSource[j].database == v
  {
    var es := ComponentEvidence(cs);
    var dbs := Databases(es);
    forall v
      ensures v in dbs <==>
        exists i, j :: 0 <= i < |cs| && 0 <= j < |cs[i].evidenceSource| && cs[i].evidenceSource[j].database == v
    {
      if v in dbs {
        var k :| 0 <= k < |dbs| && dbs[k] == v;
        assert es[k] in es;
        var i :| 0 <= i < |cs| && es[k] in cs[i].evidenceSource;
        var j :| 0 <= j < |cs[i].evidenceSource| && cs[i].evidenceSource[j] == es[k];
      }
      if i, j :| 0 <= i < |cs| && 0 <= j < |cs[i].evidenceSource| && cs[i].evidenceSource[j].database == v {
        var e := cs[i].evidenceSource[j];
        assert e in es;
        var k :| 0 <= k < |es| && es[k] == e;
        assert dbs[k] == v;
      }
    }
  }

  /** A code is projected from the component specimens exactly when some
      specimen of some component carries it (empty codes included). */
  lemma ComponentCodes(cs: seq<Component>)
    ensures forall v :: v in LoincCodes(ComponentSpecimens(cs)) <==>
      exists i, j :: 0 <= i < |cs| && 0 <= j < |cs[i].specimen| && cs[i].specimen[j].loincCode == v
  {
    var ss := ComponentSpecimens(cs);
    var codes := LoincCodes(ss);
    forall v
      ensures v in codes <==>
        exists i, j :: 0 <= i < |cs| && 0 <= j < |cs[i].specimen| && cs[i].specimen[j].loincCode == v
    {
      if v in codes {
        var k :| 0 <= k < |codes| && codes[k] == v;
        assert ss[k] in ss;
        var i :| 0 <= i < |cs| && ss[k] in cs[i].specimen;
        var j :| 0 <= j < |cs[i].specimen| && cs[i].specimen[j] == ss[k];
      }
      if i, j :| 0 <= i < |cs| && 0 <= j < |cs[i].specimen| && cs[i].specimen[j].loincCode == v {
        var x := cs[i].specimen[j];
        assert x in ss;
        var k :| 0 <= k < |ss| && ss[k] == x;
        assert codes[k] == v;
      }
    }
  }

  // ---------------------------------------------------------------------
  // Condition evaluation

  /** `iter().all(|x| x == v)`. */
  function AllEqual(xs: seq<string>, v: string): (r: bool)
    ensures r <==> forall i :: 0 <= i < |xs| ==> xs[i] == v
  {
    |xs| == 0 || (xs[0] == v && AllEqual(xs[1..], v))
  }

  /** `iter().all(|x| x.contains(v))`. */
  function AllContain(xs: seq<string>, v: string): (r: bool)
    ensures r <==> forall i :: 0 <= i < |xs| ==> Contains(xs[i], v)
  {
    |xs| == 0 || (Contains(xs[0], v) && AllContain(xs[1..], v))
  }

  /** `iter().any(|x| x.contains(v))`. */
  function SomeContains(xs: seq<string>, v: string): (r: bool)
    ensures r <==> exists i :: 0 <= i < |xs| && Contains(xs[i], v)
  {
    |xs| > 0 && (Contains(xs[0], v) || SomeContains(xs[1..], v))
  }

  /** The evidence whose database, lower-cased but not trimmed, is not
      "pubmed", in order. */
  function NonPubmedOnly(es: seq<Evidence>): (r: seq<Evidence>)
    ensures forall e :: e in r <==> e in es && ToLower(e.database) != "pubmed"
  {
    if |es| == 0 then []
    else if ToLower(es[0].database) != "pubmed" then [es[0]] + NonPubmedOnly(es[1..])
    else NonPubmedOnly(es[1..])
  }

  /** Whether a condition holds of a record. Only the record is consulted.
      `NonPubmedEvidenceSourceMatch(v)` holds exactly when every top-level
      evidence item whose lower-cased (untrimmed) database is not "pubmed"
      has database exactly `v`, so it holds vacuously when there is no such
      item; the other leaves are described by `LeafSemantics`. */
  function Evaluate(b: Biomarker, c: Condition): (r: bool)
    decreases c
    ensures c.NonPubmedEvidenceSourceMatch? ==> (r <==> NonPubmedAgree(b.evidenceSource, c.source))
  {
    match c
    case NonPubmedEvidenceSourceMatch(v) =>
      NonPubmedAllEqual(b.evidenceSource, v);
      AllEqual(Databases(NonPubmedOnly(b.evidenceSource)), v)
    case FieldEquals(f, v) => AllEqual(MatchField(b, f), v)
    case FieldAllContains(f, v) => |MatchField(b, f)| > 0 && AllContain(MatchField(b, f), v)
    case FieldSomeContains(f, v) => SomeContains(MatchField(b, f), v)
    case FieldLenGreaterThan(f, t) => (|MatchField(b, f)| as real) > t
    case FieldLenLessThan(f, t) => (|MatchField(b, f)| as real) < t
    case FieldLenEqual(f, t) => (|MatchField(b, f)| as real) == t
    case And(cs) => EvaluateAll(b, cs)
    case Or(cs) => EvaluateAny(b, cs)
  }

  /** `And`: every sub-condition holds (so the empty `And` holds). */
  function EvaluateAll(b: Biomarker, cs: seq<Condition>): (r: bool)
    decreases cs
    ensures r <==> forall i :: 0 <= i < |cs| ==> Evaluate(b, cs[i])
  {
    |cs| == 0 || (Evaluate(b, cs[0]) && EvaluateAll(b, cs[1..]))
  }

  /** `Or`: some sub-condition holds (so the empty `Or` does not). */
  function EvaluateAny(b: Biomarker, cs: seq<Condition>): (r: bool)
    decreases cs
    ensures r <==> exists i :: 0 <= i < |cs| && Evaluate(b, cs[i])
  {
    |cs| > 0 && (Evaluate(b, cs[0]) || EvaluateAny(b, cs[1..]))
  }

  /** The meaning of each leaf condition, stated over the projected values. */
  lemma LeafSemantics(b: Biomarker, f: Field, v: string, t: real)
    ensures var xs := MatchField(b, f);
      && (Evaluate(b, FieldEquals(f, v)) <==> forall i :: 0 <= i < |xs| ==> xs[i] == v)
      && (Evaluate(b, FieldAllContains(f, v)) <==> |xs| > 0 && forall i :: 0 <= i < |xs| ==> Contains(xs[i], v))
      && (Evaluate(b, FieldSomeContains(f, v)) <==> exists i :: 0 <= i < |xs| && Contains(xs[i], v))
      && (Evaluate(b, FieldLenGreaterThan(f, t)) <==> (|xs| as real) > t)
      && (Evaluate(b, FieldLenLessThan(f, t)) <==> (|xs| as real) < t)
      && (Evaluate(b, FieldLenEqual(f, t)) <==> (|xs| as real) == t)
  {
  }

  /** On a field with no values, `FieldEquals` holds vacuously while
      `FieldAllContains` and `FieldSomeContains` fail. */
  lemma EmptyProjection(b: Biomarker, f: Field, v: string)
    requires MatchField(b, f) == []
    ensures Evaluate(b, FieldEquals(f, v))
    ensures !Evaluate(b, FieldAllContains(f, v))
    ensures !Evaluate(b, FieldSomeContains(f, v))
  {
  }

  /** Every evidence item whose lower-cased database is not "pubmed" has
      database exactly `v`. */
  predicate NonPubmedAgree(es: seq<Evidence>, v: string) {
    forall e :: e in es && ToLower(e.database) != "pubmed" ==> e.database == v
  }

  /** The databases of the non-PubMed items all equal `v` exactly when
      every item whose lower-cased database is not "pubmed" has database
      `v`. */
  lemma NonPubmedAllEqual(es: seq<Evidence>, v: string)
    ensures AllEqual(Databases(NonPubmedOnly(es)), v) <==> NonPubmedAgree(es, v)
  {
    var rest := NonPubmedOnly(es);
    var dbs := Databases(rest);
    if AllEqual(dbs, v) {
      forall e | e in es && ToLower(e.database) != "pubmed"
        ensures e.database == v
      {
        var i :| 0 <= i < |rest| && rest[i] == e;
        assert dbs[i] == e.database;
      }
    } else {
      var i :| 0 <= i < |dbs| && dbs[i] != v;
      assert rest[i] in es;
    }
  }

  // ---------------------------------------------------------------------
  // Actions

  datatype ActionError = DivisionByZero

  /** The new score and the change it represents. */
  datatype Change = Change(score: real, effect: real)

  /** Applies an action to the running score. The new score is always the
      old score plus the reported effect. Dividing by zero is an error. */
  function ApplyAction(score: real, a: Action): (r: Result<Change, ActionError>)
    ensures r.Err? <==> a.DivideScore? && a.value == 0.0
    ensures r.Ok? ==> r.value.score == score + r.value.effect
    ensures r.Ok? ==> r.value.score == match a
      case SetScore(v) => v
      case AddToScore(v) => score + v
      case MultiplyScore(v) => score * v
      case SubtractScore(v) => score - v
      case DivideScore(v) => score / v
  {
    match a
    case SetScore(v) => Ok(Change(v, v - score))
    case AddToScore(v) => Ok(Change(score + v, v))
    case MultiplyScore(v) =>
      MultiplyEffect(score, v);
      Ok(Change(score * v, score * (v - 1.0)))
    case SubtractScore(v) => Ok(Change(score - v, -v))
    case DivideScore(v) =>
      if v == 0.0 then Err(DivisionByZero)
      else
        DivideEffect(score, v);
        Ok(Change(score / v, score * (1.0 / v - 1.0)))
  }

  /** The effect of multiplying is `score * (v - 1)`. */
  lemma MultiplyEffect(score: real, v: real)
    ensures score * v == score + score * (v - 1.0)
  {
  }

  /** The effect of dividing is `score * (1 / v - 1)`. */
  lemma DivideEffect(score: real, v: real)
    requires v != 0.0
    ensures score / v == score + score * (1.0 / v - 1.0)
  {
    assert score * (1.0 / v - 1.0) == score / v - score;
  }

  // ---------------------------------------------------------------------
  // Audit form of conditions

  /** `condition_to_custom_condition`: keeps the `And`/`Or` tree and turns
      every leaf into a `Simple` entry. */
  function ToCustom(c: Condition): (r: CustomCondition)
    decreases c
    ensures c.IsLeaf() ==> r == CustomCondition.Simple(c)
    ensures c.And? ==> r.And? && |r.children| == |c.conditions|
    ensures c.Or? ==> r.Or? && |r.children| == |c.conditions|
    ensures WellFormedAudit(r)
  {
    match c
    case And(cs) => CustomCondition.And(seq(|cs|, i requires 0 <= i < |cs| => ToCustom(cs[i])))
    case Or(cs) => CustomCondition.Or(seq(|cs|, i requires 0 <= i < |cs| => ToCustom(cs[i])))
    case _ => CustomCondition.Simple(c)
  }

  /** Every `Simple` entry of an audit tree holds a leaf condition. */
  predicate WellFormedAudit(cc: CustomCondition)
    decreases cc
  {
    match cc
    case Simple(leaf) => leaf.IsLeaf()
    case And(ch) => forall i :: 0 <= i < |ch| ==> WellFormedAudit(ch[i])
    case Or(ch) => forall i :: 0 <= i < |ch| ==> WellFormedAudit(ch[i])
  }

  /** Reads a condition back from its audit form. */
  function FromCustom(cc: CustomCondition): Condition
    decreases cc
  {
    match cc
    case Simple(leaf) => leaf
    case And(ch) => Condition.And(seq(|ch|, i requires 0 <= i < |ch| => FromCustom(ch[i])))
    case Or(ch) => Condition.Or(seq(|ch|, i requires 0 <= i < |ch| => FromCustom(ch[i])))
  }

  /** The audit form loses nothing: the condition can be read back from it. */
  lemma {:induction false} CustomRoundTrip(c: Condition)
    decreases c
    ensures FromCustom(ToCustom(c)) == c
  {
    match c
    case And(cs) =>
      forall i | 0 <= i < |cs| ensures FromCustom(ToCustom(cs[i])) == cs[i] {
        CustomRoundTrip(cs[i]);
      }
      assert FromCustom(ToCustom(c)).conditions == cs;
    case Or(cs) =>
      forall i | 0 <= i < |cs| ensures FromCustom(ToCustom(cs[i])) == cs[i] {
        CustomRoundTrip(cs[i]);
      }
      assert FromCustom(ToCustom(c)).conditions == cs;
    case _ =>
  }

  /** Every well-formed audit tree is the audit form of some condition. */
  lemma {:induction false} CustomRoundTripBack(cc: CustomCondition)
    decreases cc
    requires WellFormedAudit(cc)
    ensures ToCustom(FromCustom(cc)) == cc
  {
    match cc
    case Simple(leaf) =>
    case And(ch) =>
      forall i | 0 <= i < |ch| ensures ToCustom(FromCustom(ch[i])) == ch[i] {
        CustomRoundTripBack(ch[i]);
      }
      assert ToCustom(FromCustom(cc)).children == ch;
    case Or(ch) =>
      forall i | 0 <= i < |ch| ensures ToCustom(FromCustom(ch[i])) == ch[i] {
        CustomRoundTripBack(ch[i]);
      }
      assert ToCustom(FromCustom(cc)).children == ch;
  }

  // ---------------------------------------------------------------------
  // Stable sort by priority

  predicate SortedByPriority(rs: seq<Rule>) {
    forall i, j :: 0 <= i < j < |rs| ==> rs[i].priority <= rs[j].priority
  }

  /** The rules of priority `p`, in order. */
  function WithPriority(rs: seq<Rule>, p: int): seq<Rule> {
    if |rs| == 0 then []
    else (if rs[0].priority == p then [rs[0]] else []) + WithPriority(rs[1..], p)
  }

  lemma WithPriorityCons(x: Rule, s: seq<Rule>, p: int)
    ensures WithPriority([x] + s, p) == (if x.priority == p then [x] else []) + WithPriority(s, p)
  {
    assert ([x] + s)[1..] == s;
  }

  /** Inserts `x` before the first rule whose priority is not lower. */
  function InsertByPriority(x: Rule, s: seq<Rule>): (r: seq<Rule>)
    ensures multiset(r) == multiset(s) + multiset{x}
    ensures r[0] == if |s| == 0 || x.priority <= s[0].priority then x else s[0]
  {
    if |s| == 0 || x.priority <= s[0].priority then
      [x] + s
    else
      assert s == [s[0]] + s[1..];
      [s[0]] + InsertByPriority(x, s[1..])
  }

  /** Insertion keeps a sorted list sorted. */
  lemma {:induction false} InsertKeepsSorted(x: Rule, s: seq<Rule>)
    requires SortedByPriority(s)
    ensures SortedByPriority(InsertByPriority(x, s))
  {
    if |s| == 0 || x.priority <= s[0].priority {
      SortedCons(x, s);
    } else {
      var tail := InsertByPriority(x, s[1..]);
      InsertKeepsSorted(x, s[1..]);
      SortedCons(s[0], tail);
    }
  }

  /** Insertion puts `x` ahead of every rule of its own priority and leaves
      the other priority classes alone. */
  lemma {:induction false} InsertClasses(x: Rule, s: seq<Rule>, p: int)
    ensures WithPriority(InsertByPriority(x, s), p) == InsertedClass(x, s, p)
  {
    if |s| == 0 || x.priority <= s[0].priority {
      WithPriorityCons(x, s, p);
    } else {
      var tail := InsertByPriority(x, s[1..]);
      assert InsertByPriority(x, s) == [s[0]] + tail;
      InsertClasses(x, s[1..], p);
      WithPriorityCons(s[0], tail, p);
      WithPriorityCons(s[0], s[1..], p);
      assert s == [s[0]] + s[1..];
      if s[0].priority == p {
        assert x.priority != p;
      }
    }
  }

  /** A rule no later than the head of a sorted list can go in front of it. */
  lemma SortedCons(x: Rule, s: seq<Rule>)
    requires SortedByPriority(s)
    requires |s| > 0 ==> x.priority <= s[0].priority
    ensures SortedByPriority([x] + s)
  {
    var r := [x] + s;
    forall i, j | 0 <= i < j < |r| ensures r[i].priority <= r[j].priority {
      if i == 0 {
        assert r[j] == s[j - 1];
      }
    }
  }

  /** The rules of priority `p` once `x` is placed ahead of every rule of
      its own priority in `s`. */
  function InsertedClass(x: Rule, s: seq<Rule>, p: int): seq<Rule> {
    if x.priority == p then [x] + WithPriority(s, p) else WithPriority(s, p)
  }

  /** `sort_by_key(|r| r.priority)`: ascending priority, and rules of equal
      priority keep their listing order. */
  function SortByPriority(rs: seq<Rule>): (r: seq<Rule>)
    ensures SortedByPriority(r)
    ensures multiset(r) == multiset(rs)
    ensures forall p :: WithPriority(r, p) == WithPriority(rs, p)
  {
    if |rs| == 0 then []
    else
      var rest := SortByPriority(rs[1..]);
      InsertStep(rs, rest);
      InsertByPriority(rs[0], rest)
  }

  /** Sorting a list with a rule in front inserts that rule into the
      sorted rest. */
  lemma SortCons(x: Rule, rs: seq<Rule>)
    ensures SortByPriority([x] + rs) == InsertByPriority(x, SortByPriority(rs))
  {
    assert ([x] + rs)[1..] == rs;
  }

  /** One step of the insertion sort: inserting the first rule into the
      sorted rest gives a stable sort of the whole list. */
  lemma InsertStep(rs: seq<Rule>, rest: seq<Rule>)
    requires |rs| > 0
    requires SortedByPriority(rest)
    requires multiset(rest) == multiset(rs[1..])
    requires forall p :: WithPriority(rest, p) == WithPriority(rs[1..], p)
    ensures SortedByPriority(InsertByPriority(rs[0], rest))
    ensures multiset(InsertByPriority(rs[0], rest)) == multiset(rs)
    ensures forall p :: WithPriority(InsertByPriority(rs[0], rest), p) == WithPriority(rs, p)
  {
    InsertKeepsSorted(rs[0], rest);
    InsertStepMultiset(rs, rest);
    InsertStepClasses(rs, rest);
  }

  /** Inserting the first rule into a permutation of the rest gives a
      permutation of the whole list. */
  lemma InsertStepMultiset(rs: seq<Rule>, rest: seq<Rule>)
    requires |rs| > 0
    requires multiset(rest) == multiset(rs[1..])
    ensures multiset(InsertByPriority(rs[0], rest)) == multiset(rs)
  {
    assert rs == [rs[0]] + rs[1..];
  }

  /** Inserting the first rule into a list with the same priority classes
      as the rest gives the classes of the whole list. */
  lemma InsertStepClasses(rs: seq<Rule>, rest: seq<Rule>)
    requires |rs| > 0
    requires forall p :: WithPriority(rest, p) == WithPriority(rs[1..], p)
    ensures forall p :: WithPriority(InsertByPriority(rs[0], rest), p) == WithPriority(rs, p)
  {
    assert rs == [rs[0]] + rs[1..];
    forall p ensures WithPriority(InsertByPriority(rs[0], rest), p) == WithPriority(rs, p) {
      InsertClasses(rs[0], rest, p);
      WithPriorityCons(rs[0], rs[1..], p);
    }
  }

  /** The rules of priority `p` are rules of `rs` with priority `p`. */
  lemma {:induction false} WithPriorityMembers(rs: seq<Rule>, p: int, x: Rule)
    ensures x in WithPriority(rs, p) ==> x in rs && x.priority == p
  {
    if |rs| > 0 {
      WithPriorityMembers(rs[1..], p, x);
    }
  }

  /** In a sorted list no rule comes before a rule of lower priority. */
  lemma SortedHeadLeast(rs: seq<Rule>, x: Rule)
    requires SortedByPriority(rs)
    requires x in rs
    ensures rs[0].priority <= x.priority
  {
    var i :| 0 <= i < |rs| && rs[i] == x;
    if i > 0 {
      assert rs[0].priority <= rs[i].priority;
    }
  }

  /** A list with no rules of any priority is empty. */
  lemma ClassesEmpty(rs: seq<Rule>)
    ensures (forall p :: WithPriority(rs, p) == []) ==> rs == []
  {
    if |rs| > 0 {
      assert WithPriority(rs, rs[0].priority) != [];
    }
  }

  /** Two sorted lists with the same rules of each priority, in the same
      order, are the same list. */
  lemma {:induction false} SortedUnique(a: seq<Rule>, b: seq<Rule>)
    requires SortedByPriority(a) && SortedByPriority(b)
    requires forall p :: WithPriority(a, p) == WithPriority(b, p)
    ensures a == b
    decreases |a|
  {
    if |a| == 0 {
      ClassesEmpty(b);
    } else if |b| == 0 {
      ClassesEmpty(a);
    } else {
      SameHead(a, b);
      SameTailClasses(a, b);
      SortedTail(a);
      SortedTail(b);
      SortedUnique(a[1..], b[1..]);
      assert a == [a[0]] + a[1..] && b == [b[0]] + b[1..];
    }
  }

  lemma SortedTail(a: seq<Rule>)
    requires |a| > 0 && SortedByPriority(a)
    ensures SortedByPriority(a[1..])
  {
  }

  /** Two sorted lists with the same priority classes start with the same
      rule. */
  lemma SameHead(a: seq<Rule>, b: seq<Rule>)
    requires |a| > 0 && |b| > 0
    requires SortedByPriority(a) && SortedByPriority(b)
    requires forall p :: WithPriority(a, p) == WithPriority(b, p)
    ensures a[0] == b[0]
  {
    HeadNoLater(a, b);
    HeadNoLater(b, a);
    ClassHead(a);
    ClassHead(b);
    assert WithPriority(a, a[0].priority) == WithPriority(b, b[0].priority);
  }

  /** A list's first rule heads the class of its priority. */
  lemma ClassHead(rs: seq<Rule>)
    requires |rs| > 0
    ensures |WithPriority(rs, rs[0].priority)| > 0
    ensures WithPriority(rs, rs[0].priority)[0] == rs[0]
  {
  }

  /** The first rule of `b` has no higher priority than the first rule of
      `a` when both lists are sorted with the same priority classes. */
  lemma HeadNoLater(a: seq<Rule>, b: seq<Rule>)
    requires |a| > 0 && |b| > 0
    requires SortedByPriority(b)
    requires forall p :: WithPriority(a, p) == WithPriority(b, p)
    ensures b[0].priority <= a[0].priority
  {
    var p := a[0].priority;
    ClassHead(a);
    assert a[0] in WithPriority(b, p);
    WithPriorityMembers(b, p, a[0]);
    SortedHeadLeast(b, a[0]);
  }

  /** Removing the common first rule keeps the priority classes equal. */
  lemma SameTailClasses(a: seq<Rule>, b: seq<Rule>)
    requires |a| > 0 && |b| > 0 && a[0] == b[0]
    requires forall p :: WithPriority(a, p) == WithPriority(b, p)
    ensures forall q :: WithPriority(a[1..], q) == WithPriority(b[1..], q)
  {
    forall q ensures WithPriority(a[1..], q) == WithPriority(b[1..], q) {
      var head := if a[0].priority == q then [a[0]] else [];
      assert WithPriority(a, q) == head + WithPriority(a[1..], q);
      assert WithPriority(b, q) == head + WithPriority(b[1..], q);
      assert WithPriority(a[1..], q) == WithPriority(a, q)[|head|..];
      assert WithPriority(b[1..], q) == WithPriority(b, q)[|head|..];
    }
  }

  /** The stable sort is the only ordering of the rules that is sorted by
      priority and keeps the listing order within each priority. */
  lemma StableSortUnique(rs: seq<Rule>, order: seq<Rule>)
    requires SortedByPriority(order)
    requires forall p :: WithPriority(order, p) == WithPriority(rs, p)
    ensures order == SortByPriority(rs)
  {
    SortedUnique(order, SortByPriority(rs));
  }

  // ---------------------------------------------------------------------
  // Running the rules

  datatype RuleOutcome = RuleOutcome(score: real, audit: seq<CustomRuleApplication>)

  /** The rule whose action failed, and why. */
  datatype RuleError = RuleError(ruleName: string, error: ActionError)

  /** The rules whose condition holds of the record, in order;
      `FiredMembers` says which rules are kept. */
  function Fired(b: Biomarker, rs: seq<Rule>): (r: seq<Rule>)
    ensures |r| <= |rs|
  {
    if |rs| == 0 then []
    else (if Evaluate(b, rs[0].condition) then [rs[0]] else []) + Fired(b, rs[1..])
  }

  /** Filtering keeps the listing order: it distributes over
      concatenation. */
  lemma {:induction false} FiredAppend(b: Biomarker, rs: seq<Rule>, more: seq<Rule>)
    ensures Fired(b, rs + more) == Fired(b, rs) + Fired(b, more)
  {
    if |rs| == 0 {
      assert rs + more == more;
    } else {
      var x, t := rs[0], rs[1..];
      assert rs == [x] + t && rs + more == [x] + (t + more);
      FiredCons(b, x, t);
      FiredCons(b, x, t + more);
      FiredAppend(b, t, more);
      ConcatAssoc(if Evaluate(b, x.condition) then [x] else [], Fired(b, t), Fired(b, more));
    }
  }

  lemma ConcatAssoc<T>(a: seq<T>, b: seq<T>, c: seq<T>)
    ensures a + (b + c) == (a + b) + c
  {
  }

  /** A rule is kept exactly when it is listed and its condition holds. */
  lemma {:induction false} FiredMembers(b: Biomarker, rs: seq<Rule>)
    ensures forall x :: x in Fired(b, rs) <==> x in rs && Evaluate(b, x.condition)
  {
    if |rs| > 0 {
      FiredMembers(b, rs[1..]);
      assert rs == [rs[0]] + rs[1..];
    }
  }

  /** A rule in front is kept exactly when its condition holds. */
  lemma FiredCons(b: Biomarker, x: Rule, rest: seq<Rule>)
    ensures Fired(b, [x] + rest) == (if Evaluate(b, x.condition) then [x] else []) + Fired(b, rest)
  {
    assert ([x] + rest)[0] == x && ([x] + rest)[1..] == rest;
  }

  predicate DividesByZero(r: Rule) {
    r.action.DivideScore? && r.action.value == 0.0
  }

  /** An audit entry describes the given rule. */
  predicate Describes(a: CustomRuleApplication, r: Rule) {
    a.ruleName == r.name && a.condition == ToCustom(r.condition) && a.action == r.action
  }

  function SumEffects(audit: seq<CustomRuleApplication>): real {
    if |audit| == 0 then 0.0 else audit[0].effect + SumEffects(audit[1..])
  }

  /** Runs already ordered rules over a running score. The run fails exactly
      when a fired rule divides by zero; otherwise the audit describes
      exactly the fired rules, in order, and the final score is the start
      score plus the recorded effects. */
  function RunRules(b: Biomarker, rs: seq<Rule>, score: real): (r: Result<RuleOutcome, RuleError>)
    ensures r.Err? <==> exists x :: x in Fired(b, rs) && DividesByZero(x)
    ensures r.Ok? ==> |r.value.audit| == |Fired(b, rs)|
    ensures r.Ok? ==> forall i :: 0 <= i < |r.value.audit| ==> Describes(r.value.audit[i], Fired(b, rs)[i])
    ensures r.Ok? ==> r.value.score == score + SumEffects(r.value.audit)
    ensures Fired(b, rs) == [] ==> r == Ok(RuleOutcome(score, []))
  {
    if |rs| == 0 then Ok(RuleOutcome(score, []))
    else
      var rule := rs[0];
      if !Evaluate(b, rule.condition) then
        RunRules(b, rs[1..], score)
      else
        match ApplyAction(score, rule.action)
        case Err(e) =>
          assert rule in Fired(b, rs) && DividesByZero(rule);
          Err(RuleError(rule.name, e))
        case Ok(change) =>
          assert Fired(b, rs) == [rule] + Fired(b, rs[1..]);
          FailureCons(rule, Fired(b, rs[1..]));
          match RunRules(b, rs[1..], change.score)
          case Err(e) => Err(e)
          case Ok(rest) =>
            var entry := CustomRuleApplication(rule.name, ToCustom(rule.condition), rule.action, change.effect);
            AuditCons(rule, Fired(b, rs[1..]), entry, rest, score);
            Ok(RuleOutcome(rest.score, [entry] + rest.audit))
  }

  /** A list with a rule in front has a dividing-by-zero rule exactly when
      that rule divides by zero or the rest has one. */
  lemma FailureCons(rule: Rule, fired: seq<Rule>)
    ensures (exists x :: x in [rule] + fired && DividesByZero(x)) <==>
      DividesByZero(rule) || exists x :: x in fired && DividesByZero(x)
  {
    if exists x :: x in fired && DividesByZero(x) {
      var x :| x in fired && DividesByZero(x);
      assert x in [rule] + fired;
    }
    assert rule in [rule] + fired;
  }

  /** An entry describing a fired rule, put in front of an audit of the
      rules fired after it, describes the whole fired list, and its effect
      is added to the sum. */
  lemma AuditCons(rule: Rule, fired: seq<Rule>, entry: CustomRuleApplication, rest: RuleOutcome, score: real)
    requires Describes(entry, rule)
    requires |rest.audit| == |fired|
    requires forall i :: 0 <= i < |rest.audit| ==> Describes(rest.audit[i], fired[i])
    requires rest.score == score + entry.effect + SumEffects(rest.audit)
    ensures var audit := [entry] + rest.audit;
      && |audit| == |[rule] + fired|
      && (forall i :: 0 <= i < |audit| ==> Describes(audit[i], ([rule] + fired)[i]))
      && rest.score == score + SumEffects(audit)
  {
    var audit := [entry] + rest.audit;
    assert audit[1..] == rest.audit;
    forall i | 0 <= i < |audit|
      ensures Describes(audit[i], ([rule] + fired)[i])
    {
      if i > 0 {
        assert audit[i] == rest.audit[i - 1];
        assert ([rule] + fired)[i] == fired[i - 1];
      }
    }
  }

  /** The score reached by applying the actions of the fired rules one
      after another, first rule first; the first failing action stops the
      run. This is the loop of `apply_custom_rules` over the running score,
      read as a left fold. */
  function FoldActions(score: real, fired: seq<Rule>): (r: Result<real, ActionError>)
    decreases |fired|
    ensures r.Err? <==> exists x :: x in fired && DividesByZero(x)
  {
    if |fired| == 0 then Ok(score)
    else
      FailureCons(fired[0], fired[1..]);
      assert fired == [fired[0]] + fired[1..];
      match ApplyAction(score, fired[0].action)
      case Err(e) => Err(e)
      case Ok(c) => FoldActions(c.score, fired[1..])
  }

  /** Every audit entry's effect is what its rule's action does to the
      score reached just before that rule ran, which is the start score
      plus the effects of the earlier entries. */
  predicate EffectsFollow(score: real, audit: seq<CustomRuleApplication>, fired: seq<Rule>) {
    && |audit| == |fired|
    && forall i :: 0 <= i < |audit| ==> Follows(score + SumEffects(audit[..i]), fired[i], audit[i])
  }

  /** `entry` records what `rule`'s action does to the score `before`. */
  predicate Follows(before: real, rule: Rule, entry: CustomRuleApplication) {
    ApplyAction(before, rule.action) == Ok(Change(before + entry.effect, entry.effect))
  }

  /** An entry whose effect is what its rule does to `score`, in front of
      entries that follow their rules from the score after it, follows the
      whole list. */
  lemma EffectsCons(score: real, rule: Rule, entry: CustomRuleApplication, audit: seq<CustomRuleApplication>, fired: seq<Rule>)
    requires ApplyAction(score, rule.action) == Ok(Change(score + entry.effect, entry.effect))
    requires EffectsFollow(score + entry.effect, audit, fired)
    ensures EffectsFollow(score, [entry] + audit, [rule] + fired)
  {
    var all := [entry] + audit;
    forall i | 0 <= i < |all|
      ensures Follows(score + SumEffects(all[..i]), ([rule] + fired)[i], all[i])
    {
      if i == 0 {
        assert all[..0] == [];
      } else {
        EffectsAt(score, rule, entry, audit, fired, i);
      }
    }
  }

  /** Entry `i > 0` of a list with `entry` in front follows its rule because
      entry `i - 1` of the rest does. */
  lemma EffectsAt(score: real, rule: Rule, entry: CustomRuleApplication, audit: seq<CustomRuleApplication>, fired: seq<Rule>, i: int)
    requires 0 < i <= |audit|
    requires EffectsFollow(score + entry.effect, audit, fired)
    ensures Follows(score + SumEffects(([entry] + audit)[..i]), ([rule] + fired)[i], ([entry] + audit)[i])
  {
    var j := i - 1;
    assert Follows((score + entry.effect) + SumEffects(audit[..j]), fired[j], audit[j]);
    EffectsShift(score, entry, audit, i);
    assert ([rule] + fired)[i] == fired[j];
    assert ([entry] + audit)[i] == audit[j];
  }

  /** The score before entry `i` of a list with `entry` in front is the
      score after `entry` plus the effects before entry `i - 1` of the rest. */
  lemma EffectsShift(score: real, entry: CustomRuleApplication, audit: seq<CustomRuleApplication>, i: int)
    requires 0 < i <= |audit|
    ensures score + SumEffects(([entry] + audit)[..i]) == (score + entry.effect) + SumEffects(audit[..i - 1])
  {
    var all := [entry] + audit;
    assert all[..i][1..] == audit[..i - 1];
  }

  /** A run of ordered rules is the left fold of their actions over the
      running score: it succeeds exactly when the fold does, ends with the
      fold's score, and each audit entry records what its rule's action did
      to the score at that point. */
  lemma {:induction false} RunRulesFollowsActions(b: Biomarker, rs: seq<Rule>, score: real)
    ensures var r := RunRules(b, rs, score);
      var f := FoldActions(score, Fired(b, rs));
      && (r.Ok? <==> f.Ok?)
      && (r.Ok? ==> r.value.score == f.value && EffectsFollow(score, r.value.audit, Fired(b, rs)))
  {
    if |rs| > 0 {
      if !Evaluate(b, rs[0].condition) {
        RunSkips(b, rs, score);
        RunRulesFollowsActions(b, rs[1..], score);
      } else {
        RunFires(b, rs, score);
        var a := ApplyAction(score, rs[0].action);
        if a.Ok? {
          RunRulesFollowsActions(b, rs[1..], a.value.score);
          FoldFollows(score, rs[0], Fired(b, rs[1..]), a.value, RunRules(b, rs[1..], a.value.score), RunRules(b, rs, score));
        } else {
          FoldStops(score, rs[0], Fired(b, rs[1..]));
        }
      }
    }
  }

  /** The fold stops at a failing action. */
  lemma FoldStops(score: real, rule: Rule, rest: seq<Rule>)
    requires ApplyAction(score, rule.action).Err?
    ensures FoldActions(score, [rule] + rest).Err?
  {
    assert ([rule] + rest)[0] == rule;
  }

  /** The fold continues from the score a successful action produces. */
  lemma FoldCons(score: real, rule: Rule, rest: seq<Rule>, c: Change)
    requires ApplyAction(score, rule.action) == Ok(c)
    ensures FoldActions(score, [rule] + rest) == FoldActions(c.score, rest)
  {
    assert ([rule] + rest)[0] == rule && ([rule] + rest)[1..] == rest;
  }

  /** If a run of the rules after `rule` agrees with the fold from the score
      `rule`'s action produced, then the run with `rule`'s entry in front
      agrees with the fold from the score before it. */
  lemma FoldFollows(score: real, rule: Rule, rest: seq<Rule>, c: Change,
                    tail: Result<RuleOutcome, RuleError>, run: Result<RuleOutcome, RuleError>)
    requires ApplyAction(score, rule.action) == Ok(c)
    requires tail.Ok? <==> FoldActions(c.score, rest).Ok?
    requires tail.Ok? ==> tail.value.score == FoldActions(c.score, rest).value
                          && EffectsFollow(c.score, tail.value.audit, rest)
    requires run == if tail.Err? then tail else
      Ok(RuleOutcome(tail.value.score,
        [CustomRuleApplication(rule.name, ToCustom(rule.condition), rule.action, c.effect)] + tail.value.audit))
    ensures run.Ok? <==> FoldActions(score, [rule] + rest).Ok?
    ensures run.Ok? ==> run.value.score == FoldActions(score, [rule] + rest).value
                        && EffectsFollow(score, run.value.audit, [rule] + rest)
  {
    FoldCons(score, rule, rest, c);
    if tail.Ok? {
      var entry := CustomRuleApplication(rule.name, ToCustom(rule.condition), rule.action, c.effect);
      EffectsCons(score, rule, entry, tail.value.audit, rest);
    }
  }

  /** A rule whose condition does not hold is skipped. */
  lemma RunSkips(b: Biomarker, rs: seq<Rule>, score: real)
    requires |rs| > 0 && !Evaluate(b, rs[0].condition)
    ensures RunRules(b, rs, score) == RunRules(b, rs[1..], score)
    ensures Fired(b, rs) == Fired(b, rs[1..])
  {
  }

  /** A rule whose condition holds applies its action to the running score
      and, when that succeeds, leaves its audit entry in front of the
      entries of the rest of the run. */
  lemma RunFires(b: Biomarker, rs: seq<Rule>, score: real)
    requires |rs| > 0 && Evaluate(b, rs[0].condition)
    ensures Fired(b, rs) == [rs[0]] + Fired(b, rs[1..])
    ensures ApplyAction(score, rs[0].action).Err? ==> RunRules(b, rs, score).Err?
    ensures ApplyAction(score, rs[0].action).Ok? ==>
      var c := ApplyAction(score, rs[0].action).value;
      var rest := RunRules(b, rs[1..], c.score);
      var entry := CustomRuleApplication(rs[0].name, ToCustom(rs[0].condition), rs[0].action, c.effect);
      RunRules(b, rs, score) == if rest.Err? then rest else Ok(RuleOutcome(rest.value.score, [entry] + rest.value.audit))
  {
  }

  /** `apply_custom_rules`: runs the rules in stable ascending-priority
      order starting from `currentScore`. */
  function ApplyCustomRules(b: Biomarker, rules: CustomRules, currentScore: real): (r: Result<RuleOutcome, RuleError>)
    ensures var order := SortByPriority(rules.rules);
      && (r.Err? <==> exists x :: x in Fired(b, order) && DividesByZero(x))
      && (r.Ok? ==> |r.value.audit| == |Fired(b, order)|
                    && (forall i :: 0 <= i < |r.value.audit| ==> Describes(r.value.audit[i], Fired(b, order)[i]))
                    && r.value.score == currentScore + SumEffects(r.value.audit))
    ensures var order := SortByPriority(rules.rules);
      var f := FoldActions(currentScore, Fired(b, order));
      && (r.Ok? <==> f.Ok?)
      && (r.Ok? ==> r.value.score == f.value && EffectsFollow(currentScore, r.value.audit, Fired(b, order)))
    ensures (forall x :: x in rules.rules ==> !Evaluate(b, x.condition)) ==> r == Ok(RuleOutcome(currentScore, []))
  {
    var order := SortByPriority(rules.rules);
    FiredNoneWhenNoneHold(b, rules.rules, order);
    RunRulesFollowsActions(b, order, currentScore);
    RunRules(b, order, currentScore)
  }

  lemma {:induction false} FiredNoneWhenNoneHold(b: Biomarker, rs: seq<Rule>, order: seq<Rule>)
    requires multiset(order) == multiset(rs)
    ensures (forall x :: x in rs ==> !Evaluate(b, x.condition)) ==> Fired(b, order) == []
  {
    if forall x :: x in rs ==> !Evaluate(b, x.condition) {
      forall x | x in order ensures x in rs {
        assert x in multiset(order);
      }
      NoneFire(b, order);
    }
  }

  lemma {:induction false} NoneFire(b: Biomarker, rs: seq<Rule>)
    requires forall x :: x in rs ==> !Evaluate(b, x.condition)
    ensures Fired(b, rs) == []
  {
    if |rs| > 0 {
      NoneFire(b, rs[1..]);
    }
  }

  /** Which rules fire, and whether the run fails, does not depend on the
      score the run starts from. */
  lemma FiringIndependentOfScore(b: Biomarker, rules: CustomRules, s1: real, s2: real)
    ensures ApplyCustomRules(b, rules, s1).Ok? == ApplyCustomRules(b, rules, s2).Ok?
    ensures ApplyCustomRules(b, rules, s1).Ok? ==>
      var a1 := ApplyCustomRules(b, rules, s1).value.audit;
      var a2 := ApplyCustomRules(b, rules, s2).value.audit;
      |a1| == |a2| &&
      forall i :: 0 <= i < |a1| ==>
        a1[i].ruleName == a2[i].ruleName && a1[i].condition == a2[i].condition && a1[i].action == a2[i].action
  {
  }
}
