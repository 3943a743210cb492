/** A finding of the inconsistency detector: two quotes that cannot both be true. */
module Findings {

  datatype InconsistencyType = Arithmetic | Temporal | Regulatory | Market | Capacity | Internal

  datatype Severity = Low | Medium | High

  datatype Finding = Finding(
    kind: InconsistencyType,
    quoteA: string,
    quoteB: string,
    explanation: string,
    severity: Severity,
    mergedTypes: seq<InconsistencyType>)
}
