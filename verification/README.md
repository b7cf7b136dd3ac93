# Biomarker score calculator — Dafny model

This project models the scoring core of the biomarker score calculator. The
core has two pure components that read the same biomarker record.

- **The base score calculator** (`calculate_score`) walks a single evidence
  stream: the top-level evidence, then each component's evidence, in order.
  - Each item is PubMed evidence when its database name, lower-cased and then
    trimmed, is `pubmed`. Every other item counts as another source.
  - Each category keeps its own set of seen identifiers, so a repeated
    identifier counts once.
  - The first identifier of a category earns the "first" weight.
  - A later new PubMed identifier earns `other_pmid` only while the PubMed set
    holds at most `pmid_limit` identifiers.
  - A later new other-source identifier always earns `other_source`.
  - A condition in the generic-condition set costs a one-off penalty. A
    non-empty LOINC code on any specimen earns a one-off bonus.
  - The total is floored at 0 and rounded to hundredths. The result carries a
    six-line (category, weight, frequency) breakdown.
- **The custom-rule engine** (`apply_custom_rules`) stable-sorts the rules by
  their `i32` priority.
  - It evaluates each rule's recursive `And`/`Or` condition against the
    record alone.
  - For every rule whose condition holds, the action rewrites the running
    score and leaves an audit entry that records the change.

Supporting pieces:

- the weight table and its per-field merge with the defaults
  (`Weights::with_defaults`);
- the default constants;
- the rule schema;
- the minimal and full record shapes, together with their accessors.

The modules follow the source layout:

| module | file | models |
|---|---|---|
| `Base` | base.dfy | `Option`, `Result`, the `i32` range |
| `Text` | text.dfy | `to_lowercase`, `trim` and `contains` on strings |
| `Defaults` | defaults.dfy | src/defaults.rs |
| `Records` | records.dfy | src/models/minimum_models.rs |
| `FullRecords` | full_records.dfy | src/models/full_models.rs |
| `Schema` | schema.dfy | src/rules/schema.rs |
| `Models` | models.dfy | src/models/mod.rs and its older copy src/models.rs |
| `Engine` | engine.dfy | src/rules/engine.rs |
| `Calculate` | calculate.dfy | src/scores/calculate.rs |
| `Scenarios` | scenarios.dfy | worked examples over the modules above |

Scores and weights are mathematical reals.

`Calculate.Walk` is the counting loop, written as a fold. Its contract states
that the loop computes the closed form:

- `first = min(1, n)`;
- `other_pmid = max(0, min(n, limit) − 1)`;
- `other_source = max(0, m − 1)`,

where n and m are the numbers of distinct identifiers per category.

`Engine.SortByPriority` is an insertion sort. Three properties pin it down as
the stable sort:

- it is sorted;
- it is a permutation;
- for every priority it keeps the listing order of that priority's rules.

`Engine.StableSortUnique` proves that these properties determine the order.

## Model

| member | source | states |
|---|---|---|
| Calculate.IsPubmedSpec | src/scores/calculate.rs:30 | `IsPubmed` (the test at that line, lower-case then trim then compare) holds exactly when the lower-cased database name is "pubmed" with nothing but whitespace before and after it. |
| Calculate.EvidenceStream | src/scores/calculate.rs:17-22 | An item is in the stream exactly when it is top-level evidence or evidence of some component. |
| Calculate.EvidenceStreamOrder | src/scores/calculate.rs:17-22 | The stream is the top-level evidence, in order, followed by the flattened component evidence. |
| Calculate.Classify | src/scores/calculate.rs:29-37 | There is one classified item per evidence item, in order, carrying the item's identifier and marked PubMed exactly when its database names PubMed. |
| Calculate.ClassifyAppend | src/scores/calculate.rs:29-37 | Classification goes item by item: classifying two lists one after the other is classifying their concatenation. |
| Calculate.ClassifyTwo | src/scores/calculate.rs:29-37 | Two evidence items classify one by one, in order. |
| Calculate.Step | src/scores/calculate.rs:31-56 | An item whose identifier its category has already seen leaves the state unchanged. No counter ever decreases, and at most one counter grows, by one. |
| Calculate.CalculateScore | src/scores/calculate.rs:5-138 | The score is never negative. It is Σ w·f over the breakdown, floored at 0 and rounded to hundredths. The breakdown has exactly six lines, in the order first_pmid, other_pmid, first_source, other_source, generic_condition_pen, loinc. Its frequencies are the closed form over the distinct identifiers per category, the generic-set membership of the condition and the presence of some non-empty LOINC code. |
| Calculate.ScoringBreakdown | src/scores/calculate.rs:29-122 | For `Scoring` (the loop followed by the penalty, bonus and rounding steps): the lines pushed after the loop are the closed-form breakdown, labelled with the six categories in order, and the returned score is their Σ w·f floored at 0 and rounded. |
| Calculate.ReportSum | src/scores/calculate.rs:59-122 | For `Report` (what is returned once the loop has finished): once the loop's score is the weighted sum of its counters, the six pushed lines carry the categories in order and the returned score is their Σ w·f, floored at 0 and rounded. |
| Calculate.Walk | src/scores/calculate.rs:24-57 | After the loop, the PubMed and other-source sets hold exactly the distinct identifiers of each category. The counters are min(1,n), max(0,min(n,limit)−1), min(1,m) and max(0,m−1). The running score is the weighted sum of those counters. |
| Calculate.StepKeepsClosedForm | src/scores/calculate.rs:30-56 | One loop iteration extends the closed form from all items but the last to all items. |
| Calculate.StepKeepsScoreWeighted | src/scores/calculate.rs:38-55 | Each iteration adds to the score exactly the weight of the counter it increments. |
| Calculate.StepKeepsCounts | src/scores/calculate.rs:38-55 | Each iteration keeps every counter equal to its closed form in the size of the seen sets. |
| Calculate.StepRecordsId | src/scores/calculate.rs:31-38 | An item's identifier is added to the seen set of its own category and to no other. |
| Calculate.DistinctIdsMembers | src/scores/calculate.rs:17-38 | An identifier is among a category's distinct identifiers exactly when some item of that category carries it. |
| Calculate.DuplicateAddsNothing | src/scores/calculate.rs:37-38 | An item whose identifier was already seen in its category leaves the whole loop state unchanged. This holds across the top-level/component boundary too. |
| Calculate.WalkDependsOnlyOnDistinctIds | src/scores/calculate.rs:17-57 | Two evidence streams with the same distinct identifiers per category give identical loop results, whatever their order or repetitions. |
| Calculate.FirstFrequencyIffPresent | src/scores/calculate.rs:38-50 | A category's "first" frequency is 0 or 1. It is 1 exactly when some evidence item of that category exists. |
| Calculate.AnyComponentCode | src/scores/calculate.rs:103-109 | The LOINC test holds exactly when some specimen of some component has a non-empty code. |
| Calculate.AnySpecimenCode | src/scores/calculate.rs:104-108 | Within one component: some specimen has a non-empty LOINC code. |
| Calculate.Effective | src/scores/calculate.rs:41-44 | The weights the calculation reads, each `unwrap_or` its default, equal the fields of the table merged with the defaults. |
| Calculate.ScoreIgnoresMerge | src/scores/calculate.rs:41-115 | Scoring with a table already merged with the defaults gives the same result as scoring with the table itself. |
| Calculate.ScoreIgnoresClinicalUse | src/scores/calculate.rs:5-138 | The clinical-use weight never changes the score or the breakdown. |
| Calculate.Round2 | src/scores/calculate.rs:122 | A non-negative value is rounded to a whole number of hundredths within half a hundredth. |
| Calculate.Round2Exact | src/scores/calculate.rs:122 | A value that is already a whole number of hundredths is left unchanged. |
| Calculate.Round2Idempotent | src/scores/calculate.rs:122 | Rounding twice is rounding once. |
| Calculate.BreakdownSum | src/scores/calculate.rs:59-117 | The running score plus the optional penalty and bonus equals Σ w·f over the six contribution lines. |
| Calculate.BreakdownCategories | src/scores/calculate.rs:59-117 | The six lines carry the labels first_pmid, other_pmid, first_source, other_source, generic_condition_pen and loinc, in that order. |
| Calculate.WalkBreakdown | src/scores/calculate.rs:29-117 | The lines built from the finished loop equal the closed-form breakdown, and their Σ w·f is the loop score plus the optional penalty and bonus. |
| Calculate.PubmedFrequencies | src/scores/calculate.rs:38-46 | The two PubMed frequencies of the breakdown are min(1,n) and max(0,min(n,limit)−1) for n distinct PubMed identifiers. |
| Calculate.SourceFrequencies | src/scores/calculate.rs:47-54 | The two other-source frequencies are min(1,m) and max(0,m−1) for m distinct other identifiers. |
| Calculate.OnePubmedId | src/scores/calculate.rs:38-46 | Any record with exactly one distinct PubMed identifier gets first_pmid 1 and other_pmid 0, under any weights. |
| Calculate.OneSourceId | src/scores/calculate.rs:47-54 | Any record with exactly one distinct other identifier gets first_source 1 and other_source 0, under any weights. |
| Calculate.ScoreFromSum | src/scores/calculate.rs:119-122 | The score is the closed-form breakdown's Σ w·f, floored at 0 and rounded. |
| Calculate.WeightedSumOfSix | src/scores/calculate.rs:59-117 | Σ w·f over six lines is the sum of the six products. |
| Calculate.PubmedContributionBound | src/scores/calculate.rs:40-45 | With non-negative PubMed weights, the two PubMed lines together are at most first_pmid + other_pmid·max(0, limit−1), however many PubMed items there are. |
| Calculate.PubmedLinesBound | src/scores/calculate.rs:40-45 | The same bound for the closed-form breakdown of any number of distinct PubMed identifiers, whatever the other lines hold. |
| Calculate.PubmedTermsBound | src/scores/calculate.rs:40-45 | One "first" weight times min(1,n) plus the "other" weight times max(0,min(n,limit)−1) is at most one "first" weight plus max(0, limit−1) "other" weights. |
| Calculate.TallyDeterminedBySeenSets | src/scores/calculate.rs:24-57 | Two loop states whose counters are in closed form and whose seen sets agree are equal. |
| Calculate.DistinctIdsSnoc | src/scores/calculate.rs:31-38 | Appending one item adds its identifier to its own category's distinct set only. |
| Engine.ApplyCustomRules | src/rules/engine.rs:5-29 | The rules run in stable ascending-priority order. The run fails exactly when a rule that fires divides by zero. Otherwise the audit lists exactly the rules whose condition held, in evaluation order, each with its name, condition tree and action. Each entry's effect is what its rule's action does to the score reached just before it. The final score is the left fold of the fired actions over the start score, which is also the start score plus the recorded effects. When no rule's condition holds, the score is unchanged and the audit is empty. |
| Engine.RunRules | src/rules/engine.rs:16-28 | Over rules already in order: the run fails exactly when a fired rule divides by zero; otherwise the audit describes exactly the fired rules, in order, and the final score is the start score plus the recorded effects. |
| Engine.FoldActions | src/rules/engine.rs:16-27 | Applying the fired actions one after another to the running score fails exactly when one of them divides by zero. |
| Engine.RunRulesFollowsActions | src/rules/engine.rs:16-27 | A run succeeds exactly when the left fold of the fired actions does, and then ends with the fold's score. Each audit entry's effect is what its rule's action does to the start score plus the earlier effects. |
| Engine.FoldFollows | src/rules/engine.rs:17-25 | If the rest of a run agrees with the fold from the score a rule's action produced, the run with that rule's entry in front agrees with the fold from the score before it. |
| Engine.EffectsCons | src/rules/engine.rs:18-25 | An entry whose effect is what its rule does to the current score, in front of entries that follow their rules from the next score, follows the whole list. |
| Engine.FiredMembers | src/rules/engine.rs:16-17 | `Fired` keeps the rules the loop applies, in order, never more than are listed: a rule is kept exactly when it is listed and its condition holds of the record. |
| Engine.FiredAppend | src/rules/engine.rs:16-17 | Filtering keeps listing order: the fired rules of a concatenation are the fired rules of each part, one after the other. |
| Engine.FiredCons | src/rules/engine.rs:16-17 | The first rule is kept, in front of the kept rest, exactly when its condition holds. |
| Engine.FailureCons | src/rules/engine.rs:16-27 | A fired list with a rule in front contains a division by zero exactly when that rule divides by zero or the rest contains one. |
| Engine.AuditCons | src/rules/engine.rs:16-27 | An entry for the first fired rule followed by the audit of the later fired rules describes the whole fired list, and its effect joins the sum. |
| Engine.FiringIndependentOfScore | src/rules/engine.rs:16-27 | Whether the run succeeds does not depend on the start score. Neither do which rules are audited, with which names, conditions and actions. |
| Engine.FiredNoneWhenNoneHold | src/rules/engine.rs:16-17 | If no listed rule's condition holds, no rule fires in any reordering of the list. |
| Engine.NoneFire | src/rules/engine.rs:16-17 | If no rule's condition holds, the list of fired rules is empty. |
| Engine.SortByPriority | src/rules/engine.rs:13-14 | The result is sorted by priority and is a permutation of the rules. For every priority it keeps that priority's rules in listing order. |
| Engine.SortCons | src/rules/engine.rs:13-14 | Sorting a list with a rule in front inserts that rule into the sorted rest. |
| Engine.InsertStep | src/rules/engine.rs:13-14 | Inserting the first rule into a stable sort of the rest gives a stable sort of the whole list: sorted, a permutation, and each priority class in listing order. |
| Engine.InsertStepMultiset | src/rules/engine.rs:13-14 | Inserting the first rule into a permutation of the rest gives a permutation of the whole list. |
| Engine.InsertStepClasses | src/rules/engine.rs:13-14 | Inserting the first rule into a list with the rest's priority classes gives the whole list's priority classes. |
| Engine.StableSortUnique | src/rules/engine.rs:13-14 | Any ordering that is sorted by priority and keeps each priority's rules in listing order is the sort's result. |
| Engine.SortedUnique | src/rules/engine.rs:13-14 | Two sorted lists with the same rules of each priority, in the same order, are equal. |
| Engine.SameHead | src/rules/engine.rs:13-14 | Two non-empty sorted lists with the same priority classes start with the same rule. |
| Engine.HeadNoLater | src/rules/engine.rs:13-14 | A sorted list with the same priority classes as another starts with a priority no higher than the other's first rule. |
| Engine.ClassHead | src/rules/engine.rs:13-14 | A list's first rule is the first rule of its own priority class. |
| Engine.SameTailClasses | src/rules/engine.rs:13-14 | Removing a common first rule keeps the priority classes equal. |
| Engine.SortedTail | src/rules/engine.rs:13-14 | The tail of a sorted list is sorted. |
| Engine.InsertByPriority | src/rules/engine.rs:13-14 | Inserting a rule adds exactly that rule and puts it before the first rule of equal or higher priority. |
| Engine.InsertKeepsSorted | src/rules/engine.rs:13-14 | Insertion keeps a sorted list sorted. |
| Engine.InsertClasses | src/rules/engine.rs:13-14 | Insertion puts the rule at the front of its own priority class and leaves the other classes unchanged. |
| Engine.SortedCons | src/rules/engine.rs:13-14 | A rule whose priority is no higher than a sorted list's head may be put in front of it. |
| Engine.ClassesEmpty | src/rules/engine.rs:13-14 | A list with no rules of any priority is empty. |
| Engine.SortedHeadLeast | src/rules/engine.rs:13-14 | The head of a sorted list has the lowest priority in the list. |
| Engine.WithPriorityMembers | src/rules/engine.rs:13-14 | A priority class contains only rules of the list with that priority. |
| Engine.WithPriorityCons | src/rules/engine.rs:13-14 | The priority class of a list with a rule in front: that rule, if its priority matches, followed by the class of the rest. |
| Engine.ApplyAction | src/rules/engine.rs:66-74 | The new score is Set v, Add old+v, Multiply old·v, Subtract old−v, or Divide old/v. For every action the new score is the old score plus the reported effect. Dividing by zero, and only that, is an error. |
| Engine.MultiplyEffect | src/rules/engine.rs:70 | Multiplying by v is adding score·(v−1). |
| Engine.DivideEffect | src/rules/engine.rs:72 | Dividing by a non-zero v is adding score·(1/v−1). |
| Engine.Evaluate | src/rules/engine.rs:31-64 | `NonPubmedEvidenceSourceMatch(v)` holds exactly when every top-level item whose lower-cased, untrimmed database is not "pubmed" has database equal to v, case-sensitively. It holds vacuously when no such item exists. |
| Engine.NonPubmedAllEqual | src/rules/engine.rs:33-37 | All the filtered database names equal v exactly when every item whose lower-cased database is not "pubmed" has database v. |
| Engine.NonPubmedOnly | src/rules/engine.rs:34-36 | The filtered items are exactly the top-level items whose lower-cased database is not "pubmed". |
| Engine.LeafSemantics | src/rules/engine.rs:38-58 | FieldEquals means every projected value equals the value. FieldAllContains means the projection is non-empty and every value contains the value. FieldSomeContains means some value contains it. FieldLen* compare the projection's length, as a real, with the threshold. |
| Engine.EmptyProjection | src/rules/engine.rs:38-49 | On an empty projection, FieldEquals holds while FieldAllContains and FieldSomeContains fail. |
| Engine.EvaluateAll | src/rules/engine.rs:59-61 | `And` holds exactly when every sub-condition holds, so the empty `And` holds. |
| Engine.EvaluateAny | src/rules/engine.rs:62 | `Or` holds exactly when some sub-condition holds, so the empty `Or` does not. |
| Engine.AllEqual | src/rules/engine.rs:39 | All values equal the given one. |
| Engine.AllContain | src/rules/engine.rs:43-45 | Every value contains the given substring. |
| Engine.SomeContains | src/rules/engine.rs:47-49 | Some value contains the given substring. |
| Engine.MatchField | src/rules/engine.rs:76-98 | The identifier fields project to the record's single identifier. The top-level database field gives one name per top-level evidence item, in order. The component-database field gives one name per flattened component evidence item, and the LOINC field one code per flattened specimen, in order with repeats kept, so the `FieldLen*` conditions count the repeats. A name or code is in these projections exactly when some evidence item or specimen of some component carries it, empty codes included. |
| Engine.ComponentDatabases | src/rules/engine.rs:79-84 | A database name is projected from the component evidence exactly when some evidence item of some component carries it. |
| Engine.ComponentCodes | src/rules/engine.rs:91-96 | A code is projected from the component specimens exactly when some specimen of some component carries it. |
| Engine.Databases | src/rules/engine.rs:86-90 | The projection keeps one database name per evidence item, in order. |
| Engine.LoincCodes | src/rules/engine.rs:91-96 | The projection keeps one code per specimen, in order, empty codes included. |
| Engine.ToCustom | src/rules/engine.rs:100-116 | The audit form keeps the `And`/`Or` tree, with the same number of children, and turns every other condition into a `Simple` entry. |
| Engine.CustomRoundTrip | src/rules/engine.rs:100-116 | The audit form loses nothing: reading it back gives the original condition. |
| Engine.CustomRoundTripBack | src/rules/engine.rs:100-116 | Every well-formed audit tree is the audit form of the condition it reads back to. |
| Models.WithDefaults | src/models/mod.rs:43-73 | Every field of the result is set. Without overrides the result is the default table. Otherwise each field independently takes the override's value when it is given and the default when it is not. |
| Models.DefaultWeights | src/models/mod.rs:25-38 | The default table sets every field: clinical use 5, first PubMed 1, other PubMed 0.2, PubMed limit 10, first source 1, other source 0.1, LOINC 1, generic penalty −4 and the generic set {"DOID:162"}. |
| Models.MergeKeepsComplete | src/models/mod.rs:43-73 | A table with every field set is unchanged by the merge. |
| Models.MergeIdempotent | src/models/mod.rs:43-73 | Merging an already merged table changes nothing. |
| Models.GenericConditionsReplaced | src/models.rs:114-116 | A given generic-condition set replaces the default set as is. The default identifier is not added back. |
| Schema.PathInjective | src/rules/schema.rs:54-64 | `Path` maps each of the five fields to its path string, and distinct fields have distinct paths. |
| Records.ComponentEvidence | src/rules/engine.rs:79-84 | The flattened component evidence holds exactly the evidence of some component. |
| Records.ComponentSpecimens | src/rules/engine.rs:91-96 | The flattened specimens are exactly the specimens of some component. |
| Records.ComponentEvidenceAppend | src/scores/calculate.rs:17-22 | Flattening component evidence distributes over concatenating component lists. |
| Records.ComponentSpecimensAppend | src/rules/engine.rs:91-96 | Flattening specimens distributes over concatenating component lists. |
| Records.ComponentEvidenceAt | src/rules/engine.rs:79-84 | Component i's evidence sits, in order, right after the evidence of the components before it. |
| Records.ComponentSpecimensAt | src/rules/engine.rs:91-96 | Component i's specimens sit, in order, right after the specimens of the components before it. |
| FullRecords.View | src/models/full_models.rs:21-37 | A full record's accessors return its identifier, its condition's id, its evidence and its components, with the extra keys dropped. |
| FullRecords.ComponentOf | src/models/full_models.rs:47-57 | A full component's accessors return its specimens and evidence, with the extra keys dropped. |
| FullRecords.EvidenceView | src/models/full_models.rs:80-87 | Each evidence entry exposes its id and database verbatim. |
| FullRecords.SpecimenView | src/models/full_models.rs:103-107 | Each specimen exposes its LOINC code verbatim. |
| FullRecords.ComponentView | src/models/full_models.rs:47-57 | The components are viewed one by one, in order. |
| FullRecords.ViewEmbed | src/models/full_models.rs:21-37 | Viewing a full record built from a minimal record, with no extra keys, gives back the minimal record. |
| FullRecords.ViewIgnoresOther | src/models/full_models.rs:11-19 | Forgetting every extra key does not change what the accessors return. |
| FullRecords.ScoreIgnoresOther | src/models/full_models.rs:21-37 | Two full records that differ only in their extra keys get the same score and breakdown. |
| FullRecords.RulesIgnoreOther | src/models/full_models.rs:21-37 | Two full records that differ only in their extra keys get the same rule outcome. |
| FullRecords.StripOther | src/models/full_models.rs:11-19 | Stripping sets every extra key to null: on the record, on its condition, on its evidence, on its components, and on each component's evidence and specimens. |
| FullRecords.ComponentRoundTrip | src/models/full_models.rs:47-57 | Viewing an embedded component gives the original component back. |
| FullRecords.Embed | src/models/full_models.rs:11-19 | An embedded record carries no extra keys and keeps the number of components and of evidence items. |
| FullRecords.EmbedEvidence | src/models/full_models.rs:72-78 | Embedding keeps each evidence id and database, with no extra keys. |
| Text.ToLower | src/scores/calculate.rs:30 | Lower-casing keeps the length, leaves no upper-case ASCII letter and changes no other character. |
| Text.ToLowerIdempotent | src/scores/calculate.rs:30 | Lower-casing twice is lower-casing once. |
| Text.LowerKeepsLower | src/scores/calculate.rs:30 | A string with no upper-case ASCII letter is its own lower-case form. |
| Text.Trim | src/scores/calculate.rs:30 | The trimmed string is no longer than the original, and when non-empty it neither starts nor ends with whitespace. |
| Text.TrimSpec | src/scores/calculate.rs:30 | The trimmed string is a slice of the original with only whitespace outside it, and it neither starts nor ends with whitespace. |
| Text.TrimSlice | src/scores/calculate.rs:30 | The trimmed string is the slice that starts where the leading whitespace ends, with only whitespace outside it. |
| Text.TrimmedUnique | src/scores/calculate.rs:30 | Conversely, a non-empty slice with only whitespace outside it and no whitespace at either end is the trim: the properties determine the trim. |
| Text.StartUnique | src/scores/calculate.rs:30 | Leading whitespace that ends at a non-whitespace character is exactly what trimming the start drops. |
| Text.EndUnique | src/scores/calculate.rs:30 | Trailing whitespace that starts after a non-whitespace character is exactly what trimming the end drops. |
| Text.TrimEquals | src/scores/calculate.rs:30 | A string without whitespace at either end is the trim of s exactly when it sits in s with only whitespace around it. |
| Text.TrimUnpadded | src/scores/calculate.rs:30 | A string that neither starts nor ends with whitespace is its own trim. |
| Text.SliceTrimmed | src/scores/calculate.rs:30 | A prefix of a suffix, with only whitespace before the suffix and after the prefix, is trimmed out of the string at that position. |
| Text.SuffixPrefix | src/scores/calculate.rs:30 | A prefix of a suffix is a slice of the string. |
| Text.WhitespaceTail | src/scores/calculate.rs:30 | Trailing whitespace of a suffix is trailing whitespace of the whole string. |
| Text.TrimIdempotent | src/scores/calculate.rs:30 | Trimming twice is trimming once. |
| Text.TrimStart | src/scores/calculate.rs:30 | The longest suffix that does not start with whitespace. |
| Text.TrimEnd | src/scores/calculate.rs:30 | The longest prefix that does not end with whitespace. |
| Text.Contains | src/rules/engine.rs:45 | `contains` holds exactly when the needle occurs at some position, so the empty needle is in every string. |
| Scenarios.OnePaperScore | src/scores/calculate.rs:38-122 | Default weights, one top-level PubMed "P1", one non-empty LOINC code and a non-generic condition: the score is 2. |
| Scenarios.GenericPaperScore | src/scores/calculate.rs:81-122 | The same record with condition DOID:162 sums to 1 + 1 − 4 and scores 0. |
| Scenarios.OnePaperBreakdown | src/scores/calculate.rs:59-117 | The six contribution lines of that record under the default weights. |
| Scenarios.OnePaperSum | src/scores/calculate.rs:59-117 | That breakdown sums to 2, or to −2 when the condition is DOID:162. |
| Scenarios.ReplacedGenericListScore | src/scores/calculate.rs:82-92 | With the generic set replaced by {"DOID:4"}, the DOID:162 record is not penalised and scores 2. |
| Scenarios.ReplacedGenericBreakdown | src/scores/calculate.rs:82-99 | The breakdown of that record under the replaced generic set has no penalty. |
| Scenarios.DefaultPubmedBound | src/defaults.rs:4-6 | Under the default weights the PubMed lines of any record contribute at most 2.8. |
| Scenarios.DefaultSettings | src/defaults.rs:3-11 | The weights the calculation reads when nothing is overridden. |
| Scenarios.PmidLimitTwo | src/scores/calculate.rs:40-46 | Three distinct PubMed papers give an other_pmid frequency of 1 under limit 2. |
| Scenarios.PmidLimitZero | src/scores/calculate.rs:40-46 | Three distinct PubMed papers give an other_pmid frequency of 0 under limit 0. |
| Scenarios.PmidLimitDefault | src/scores/calculate.rs:40-46 | Three distinct PubMed papers give an other_pmid frequency of 2 under the default limit of 10. |
| Scenarios.ThreePapersUnder | src/scores/calculate.rs:40-46 | Three distinct PubMed papers give an other_pmid frequency of max(0, min(3, limit) − 1) under any weight table. |
| Scenarios.ThreePapersIds | src/scores/calculate.rs:31-38 | Three PubMed papers with distinct identifiers make three distinct PubMed identifiers. |
| Scenarios.ThreeIds | src/scores/calculate.rs:31-38 | Three distinct PubMed identifiers in a row form a set of three. |
| Scenarios.ThreePapersStream | src/scores/calculate.rs:17-30 | The three-paper record classifies as three PubMed items. |
| Scenarios.RepeatedPaperCountsOnce | src/scores/calculate.rs:17-46 | The same PubMed paper at the top level and in a component, under a different spelling of the database, gives first_pmid 1 and other_pmid 0. |
| Scenarios.RepeatedPaperIds | src/scores/calculate.rs:31-38 | That record has the single distinct PubMed identifier "P1". |
| Scenarios.RepeatedIds | src/scores/calculate.rs:31-38 | The same PubMed item twice gives one distinct identifier. |
| Scenarios.RepeatedPaperStream | src/scores/calculate.rs:17-30 | That record classifies as the same PubMed item twice. |
| Scenarios.SharedIdCountsInBoth | src/scores/calculate.rs:31-53 | One identifier cited under PubMed and under another database counts as first in both categories. |
| Scenarios.SharedIdIds | src/scores/calculate.rs:31-38 | That record has the distinct identifier "X1" once in each category. |
| Scenarios.SharedIdsOf | src/scores/calculate.rs:31-38 | The shared identifier, seen once under each category, is one distinct identifier in either category. |
| Scenarios.SharedIdStream | src/scores/calculate.rs:17-30 | That record classifies as one PubMed item and one other-source item with the same identifier. |
| Scenarios.SinglePubmedIds | src/scores/calculate.rs:31-38 | One PubMed item gives one PubMed identifier and no other-source identifier. |
| Scenarios.OnePaperStream | src/scores/calculate.rs:17-30 | The one-paper record classifies as a single PubMed item. |
| Scenarios.PubmedMixedCase | src/scores/calculate.rs:30 | "PubMed" is PubMed evidence. |
| Scenarios.PubmedPadded | src/scores/calculate.rs:30 | " PubMed " is PubMed evidence. |
| Scenarios.LowercasePubmed | src/scores/calculate.rs:30 | "pubmed" is PubMed evidence. |
| Scenarios.CentralNotPubmed | src/scores/calculate.rs:30 | "PubMed Central" is not PubMed evidence: only the exact name, up to case and surrounding whitespace, is. |
| Scenarios.UniProtNotPubmed | src/scores/calculate.rs:30 | "UniProtKB" is not PubMed evidence. |
| Scenarios.LowerExamples | src/scores/calculate.rs:30 | Lower-casing the example database names. |
| Scenarios.PaddedTrimSteps | src/scores/calculate.rs:30 | Trimming " pubmed " removes one space at each end. |
| Scenarios.TrimStartSpace | src/scores/calculate.rs:30 | Trimming the start of " pubmed " removes the leading space. |
| Scenarios.TrimEndSpace | src/scores/calculate.rs:30 | Trimming the end of "pubmed " removes the trailing space. |
| Scenarios.PriorityOrderExample | src/rules/engine.rs:13-14 | Priorities [10, 5, 5] listed as [A, B, C] run as [B, C, A]. |
| Scenarios.SortTail | src/rules/engine.rs:13-14 | Two rules of equal priority keep their listing order. |
| Scenarios.InsertA | src/rules/engine.rs:13-14 | The priority-10 rule goes after both priority-5 rules. |
| Scenarios.ActionExamples | src/rules/engine.rs:66-74 | On a score of 3: SetScore(7.5) has effect 4.5, MultiplyScore(2) has effect 3, DivideScore(2) gives 1.5, and DivideScore(0) is an error. |
| Scenarios.RuleRunExample | src/rules/engine.rs:5-29 | Starting from 2, B doubles the score to 4, C's empty `Or` never holds, and A adds 1.5. The outcome is 5.5, with audit entries for B and A. |
| Scenarios.RunExample | src/rules/engine.rs:16-28 | The same run over the rules in priority order. |
| Scenarios.RunLast | src/rules/engine.rs:16-28 | Running A alone from 4 gives 5.5 with one audit entry. |
| Scenarios.PaddedDatabaseDisagreement | src/rules/engine.rs:36 | An item from " PubMed " is PubMed evidence for the score. The rule filter does not trim, so the item survives it and a match on "UniProtKB" fails. |

## Left out

- File discovery, async file I/O, JSON parsing and serialisation, the command line, the score map, and overwrite mode with its injection of `score`/`score_info` are I/O and are not modelled. This covers src/main.rs, src/scores/map.rs and src/scores/overwrite.rs.
- `parse_rules`, `get_weights_overrides` and `get_user_weights` only read a file and deserialise it, so they are not modelled. A weight table or rule list enters the model as a value.
- src/models/traits.rs is an interface with no behaviour. The Dafny record datatypes and the `FullRecords.View` accessor stand in for it.
- The serde `flatten` round trip of the extra keys is serialisation. `FullRecords` keeps the extra keys as a `Json` value and proves that scoring and rule evaluation never read them.
- The `formula`, `variables` and `custom_rules` fields of `ScoreInfo` are constant or caller-filled metadata. `Calculate.ScoreInfo` holds only the contributions.
- Text.ToLower: maps only the ASCII letters `A`–`Z`, because Unicode case mapping, which can change the string's length, is not modelled. Every name the scorer compares with is ASCII.
- Calculate.Round2: rounds halves up on exact reals. Binary floating-point artefacts of `f64` multiplication, addition and `round` are not modelled.
- Calculate.CalculateScore: sums in exact real arithmetic, so the f64 summation order of the original does not matter in the model.
- Engine.ApplyAction: a `DivideScore` by zero returns `DivisionByZero`, and `Engine.ApplyCustomRules` aborts the whole run with the rule's name. The original divides anyway and yields an infinite or NaN score. Treating this as a fatal error is a deliberate choice; every non-zero divisor behaves as in the original.
- Engine.ApplyCustomRules: the audit entry stores the rule's `Action` value and leaf `Condition` values rather than their `Debug` text, because that text is just a rendering of those values.
- `NonPubmedEvidenceSourceMatch` takes no field and looks only at the top-level evidence. It lower-cases without trimming before comparing with "pubmed", compares the remaining names case-sensitively, and holds when nothing remains (`Engine.Evaluate`).
- The `clinical_use` weight is merged like the others but never read by the scorer (`Calculate.ScoreIgnoresClinicalUse`).
