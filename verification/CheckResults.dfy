/** What a checker reports, and what decoding a remote report gives. */
module CheckResults {
  import opened Collections

  datatype CheckResult = CheckResult(checker: string, error: string, description: string)

  /** A decoder may fail and still have filled in some results. */
  datatype Decoded = Decoded(checks: seq<CheckResult>, error: Option<string>)
}
