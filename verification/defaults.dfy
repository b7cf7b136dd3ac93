/** The default weight table the scorer falls back to for every weight the
    user does not override. */
module Defaults {
  import opened Base

  const CLINICAL_USE: Int32 := 5
  const FIRST_PMID: Int32 := 1
  const OTHER_PMID: real := 0.2
  const PMID_LIMIT: nat := 10
  const FIRST_SOURCE: Int32 := 1
  const OTHER_SOURCE: real := 0.1
  const LOINC: Int32 := 1
  const GENERIC_CONDITION_PEN: Int32 := -4
  /** Condition identifiers considered too broad to be informative. */
  const GENERIC_CONDITIONS: seq<string> := ["DOID:162"]
}
