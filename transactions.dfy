/** One row of the working transaction table and the comparisons the rules
    make on it. */
module Transactions {
  import opened Wrappers

  /** A cell of the amount column. `NotNumeric` stands for a cell that is
      missing or does not convert to a number (NaN in the table): every
      comparison against it is false. */
  datatype Amount = Numeric(value: real) | NotNumeric

  predicate Below(a: Amount, bound: real)
  {
    a.Numeric? && a.value < bound
  }

  predicate Above(a: Amount, bound: real)
  {
    a.Numeric? && a.value > bound
  }

  /** A row with its annotation columns. `date` is `None` for a timestamp
      that did not parse; dates are counted in a fixed unit (days, say) so
      that "later" is `>`. */
  datatype Row = Row(
    amount: Amount,
    date: Option<int>,
    valid: bool,
    remediation: string,
    anomalyReason: string,
    anomalyScore: int,
    riskScore: int)
}
