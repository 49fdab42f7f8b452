/** Rule-driven validation (`validate_transaction`): every row is reset to
    valid, then three fixed rules run in a fixed order, each only when its
    phrase occurs in the consolidated rule text. A rule that fires on a row
    marks it invalid and overwrites its remediation text. */
module Validation {
  import opened Wrappers
  import opened Substring
  import opened Transactions

  const NoIssues := "No issues detected."

  datatype Rule = NegativeAmount | FutureDate | HighValue

  /** The order in which the rules are checked. */
  const RuleOrder: seq<Rule> := [NegativeAmount, FutureDate, HighValue]

  /** The phrase whose presence in the rule text enables a rule. */
  function Phrase(rule: Rule): string
  {
    match rule
    case NegativeAmount => "Transaction amount should not be negative"
    case FutureDate => "Transaction date should not be in the future"
    case HighValue => "High-value transactions should be flagged"
  }

  /** The remediation text a rule writes on the rows it marks. */
  function Hint(rule: Rule): string
  {
    match rule
    case NegativeAmount => "Review transaction details. Verify with customer."
    case FutureDate => "Check if transaction date entry is incorrect."
    case HighValue => "Review high-value transactions for compliance."
  }

  /** The rule's predicate on one row. An unparsable date is never later
      than today, and a non-numeric amount is neither negative nor high. */
  predicate Violates(rule: Rule, row: Row, today: int)
  {
    match rule
    case NegativeAmount => Below(row.amount, 0.0)
    case FutureDate => row.date.Some? && row.date.value > today
    case HighValue => Above(row.amount, 5000.0)
  }

  /** The rule is enabled by the rule text and its predicate holds. */
  predicate Fires(rule: Rule, row: Row, rules: string, today: int)
  {
    Contains(rules, Phrase(rule)) && Violates(rule, row, today)
  }

  /** The two columns the validation starts from. */
  function Reset(row: Row): Row
  {
    row.(valid := true, remediation := NoIssues)
  }

  /** One masked assignment pair: rows matching the rule become invalid and
      get the rule's hint. */
  function Mark(row: Row, rule: Rule, today: int): Row
  {
    if Violates(rule, row, today) then row.(valid := false, remediation := Hint(rule)) else row
  }

  /** One guarded block: the rule runs only when its phrase is in the text. */
  function Check(row: Row, rule: Rule, rules: string, today: int): Row
  {
    if Contains(rules, Phrase(rule)) then Mark(row, rule, today) else row
  }

  /** The blocks for `rs`, run in order. */
  function CheckAll(row: Row, rs: seq<Rule>, rules: string, today: int): Row
    decreases |rs|
  {
    if rs == [] then row else CheckAll(Check(row, rs[0], rules, today), rs[1..], rules, today)
  }

  /** What validation makes of one row: only the two validation columns
      change, and a row is valid exactly when it carries the no-issues text
      (`ValidationOutcome` says which rule decides). */
  function ValidatedRow(row: Row, rules: string, today: int): (out: Row)
    ensures out.amount == row.amount && out.date == row.date
    ensures out.anomalyReason == row.anomalyReason && out.anomalyScore == row.anomalyScore &&
      out.riskScore == row.riskScore
    ensures out.valid <==> out.remediation == NoIssues
  {
    CheckAllOutcome(Reset(row), RuleOrder, rules, today);
    CheckAll(Reset(row), RuleOrder, rules, today)
  }

  /** What validation makes of the whole table: row by row, in table order. */
  function Validated(rows: seq<Row>, rules: string, today: int): (out: seq<Row>)
    ensures |out| == |rows|
    ensures forall i :: 0 <= i < |rows| ==>
      out[i].amount == rows[i].amount && out[i].date == rows[i].date &&
      (out[i].valid <==> out[i].remediation == NoIssues)
  {
    seq(|rows|, i requires 0 <= i < |rows| => ValidatedRow(rows[i], rules, today))
  }

  /** Reference definition: the last rule of `rs` that fires on the row. */
  function LastFired(rs: seq<Rule>, row: Row, rules: string, today: int): Option<Rule>
    decreases |rs|
  {
    if rs == [] then None
    else if Fires(rs[|rs| - 1], row, rules, today) then Some(rs[|rs| - 1])
    else LastFired(rs[..|rs| - 1], row, rules, today)
  }

  /** The remediation text a row ends with, given the last rule that fired
      on it (if any) and the text it started with. */
  function HintOr(last: Option<Rule>, otherwise: string): string
  {
    match last
    case Some(rule) => Hint(rule)
    case None => otherwise
  }

  /** Rules only read the amount and the date, so rows that agree on both
      see the same last firing rule. */
  lemma {:induction false} LastFiredSameData(rs: seq<Rule>, a: Row, b: Row, rules: string, today: int)
    requires a.amount == b.amount && a.date == b.date
    ensures LastFired(rs, a, rules, today) == LastFired(rs, b, rules, today)
    decreases |rs|
  {
    if rs != [] {
      LastFiredSameData(rs[..|rs| - 1], a, b, rules, today);
    }
  }

  /** Peeling the first rule off `rs`: it is the last to fire only when no
      later rule fires. */
  lemma {:induction false} LastFiredFirst(rs: seq<Rule>, row: Row, rules: string, today: int)
    requires rs != []
    ensures LastFired(rs, row, rules, today) ==
      match LastFired(rs[1..], row, rules, today)
      case Some(rule) => Some(rule)
      case None => if Fires(rs[0], row, rules, today) then Some(rs[0]) else None
    decreases |rs|
  {
    if |rs| > 1 {
      assert rs[1..][..|rs[1..]| - 1] == rs[..|rs| - 1][1..];
      LastFiredFirst(rs[..|rs| - 1], row, rules, today);
    }
  }

  /** Running the blocks for `rs` in order: only the validity and the
      remediation change; a row is invalid afterwards exactly when it was
      already invalid or some rule of `rs` fired, and its remediation comes
      from the last rule that fired. */
  lemma {:induction false} CheckAllOutcome(row: Row, rs: seq<Rule>, rules: string, today: int)
    ensures var out := CheckAll(row, rs, rules, today);
      out.amount == row.amount && out.date == row.date &&
      out.anomalyReason == row.anomalyReason && out.anomalyScore == row.anomalyScore &&
      out.riskScore == row.riskScore &&
      (out.valid <==> row.valid && LastFired(rs, row, rules, today).None?) &&
      out.remediation == HintOr(LastFired(rs, row, rules, today), row.remediation)
    decreases |rs|
  {
    if rs != [] {
      var next := Check(row, rs[0], rules, today);
      CheckAllOutcome(next, rs[1..], rules, today);
      LastFiredSameData(rs[1..], next, row, rules, today);
      LastFiredFirst(rs, row, rules, today);
    }
  }

  /** The outcome of validation on one row, stated rule by rule: invalid
      exactly when some enabled rule's predicate holds, with the hint of the
      last such rule in the order negative amount, future date, high value,
      and every other column untouched. */
  lemma ValidationOutcome(row: Row, rules: string, today: int)
    ensures var out := ValidatedRow(row, rules, today);
      (!out.valid <==>
        Fires(NegativeAmount, row, rules, today) ||
        Fires(FutureDate, row, rules, today) ||
        Fires(HighValue, row, rules, today)) &&
      out.remediation ==
        (if Fires(HighValue, row, rules, today) then Hint(HighValue)
         else if Fires(FutureDate, row, rules, today) then Hint(FutureDate)
         else if Fires(NegativeAmount, row, rules, today) then Hint(NegativeAmount)
         else NoIssues) &&
      out.amount == row.amount && out.date == row.date &&
      out.anomalyReason == row.anomalyReason && out.anomalyScore == row.anomalyScore &&
      out.riskScore == row.riskScore
  {
    var start := Reset(row);
    CheckAllOutcome(start, RuleOrder, rules, today);
    LastFiredSameData(RuleOrder, start, row, rules, today);
    assert RuleOrder[..2] == [NegativeAmount, FutureDate];
    assert RuleOrder[..2][..1] == [NegativeAmount];
    assert [NegativeAmount][..0] == [];
  }

  /** Only the rules whose phrase is present can mark a row: with just the
      negative-amount phrase in the text, exactly the negative rows become
      invalid. */
  lemma OnlyNegativePhrase(row: Row, rules: string, today: int)
    requires Contains(rules, Phrase(NegativeAmount))
    requires !Contains(rules, Phrase(FutureDate)) && !Contains(rules, Phrase(HighValue))
    ensures var out := ValidatedRow(row, rules, today);
      (out.valid <==> !Below(row.amount, 0.0)) &&
      out.remediation == (if Below(row.amount, 0.0) then Hint(NegativeAmount) else NoIssues)
  {
    ValidationOutcome(row, rules, today);
  }

  /** A high-value row with a past date stays valid when the rule text holds
      only the negative-amount phrase. */
  lemma HighValueIgnoredWithoutPhrase(row: Row, today: int)
    requires row.amount == Numeric(6000.0) && row.date == Some(today - 30)
    ensures ValidatedRow(row, Phrase(NegativeAmount), today).valid
    ensures ValidatedRow(row, Phrase(NegativeAmount), today).remediation == NoIssues
  {
    var rules := Phrase(NegativeAmount);
    var high := Phrase(HighValue);
    assert rules[..|rules|] == rules;
    assert Contains(rules, rules);
    NotContainsLonger(rules, Phrase(FutureDate));
    assert |high| == |rules| && rules[0] != high[0];
    NotContainsLonger(rules[1..], high);
    OnlyNegativePhrase(row, rules, today);
  }

  /** An unparsable date never counts as a future date: such a row is
      invalid only through the amount rules, and never gets the date hint. */
  lemma NullDateNeverFuture(row: Row, rules: string, today: int)
    requires row.date.None?
    ensures var out := ValidatedRow(row, rules, today);
      (!out.valid <==> Fires(NegativeAmount, row, rules, today) || Fires(HighValue, row, rules, today)) &&
      out.remediation != Hint(FutureDate)
  {
    ValidationOutcome(row, rules, today);
  }

  /** The later rule's hint wins: a negative row dated in the future gets
      the date hint, and a high-value row dated in the future gets the
      high-value hint, when all the phrases involved are present. */
  lemma LaterRuleWins(row: Row, rules: string, today: int)
    requires Contains(rules, Phrase(FutureDate)) && row.date.Some? && row.date.value > today
    ensures Below(row.amount, 0.0) ==>
      ValidatedRow(row, rules, today).remediation == Hint(FutureDate)
    ensures Above(row.amount, 5000.0) && Contains(rules, Phrase(HighValue)) ==>
      ValidatedRow(row, rules, today).remediation == Hint(HighValue)
  {
    ValidationOutcome(row, rules, today);
  }

  /** A table of three rows checked against a text that enables all three
      rules: a small payment dated in the past stays valid, a negative one
      gets the customer-verification hint, and a 6000 payment dated in the
      future gets the high-value hint, which the later rule writes over the
      date hint. */
  lemma ThreeRowScenario(rules: string, today: int)
    requires Contains(rules, Phrase(NegativeAmount))
    requires Contains(rules, Phrase(FutureDate))
    requires Contains(rules, Phrase(HighValue))
    ensures var out := Validated([
        Row(Numeric(100.0), Some(today - 90), false, "", "", 0, 0),
        Row(Numeric(-10.0), Some(today - 60), false, "", "", 0, 0),
        Row(Numeric(6000.0), Some(today + 30), false, "", "", 0, 0)], rules, today);
      |out| == 3 &&
      out[0].valid && out[0].remediation == NoIssues &&
      !out[1].valid && out[1].remediation == Hint(NegativeAmount) &&
      !out[2].valid && out[2].remediation == Hint(HighValue)
  {
    var rows := [
      Row(Numeric(100.0), Some(today - 90), false, "", "", 0, 0),
      Row(Numeric(-10.0), Some(today - 60), false, "", "", 0, 0),
      Row(Numeric(6000.0), Some(today + 30), false, "", "", 0, 0)];
    ValidationOutcome(rows[0], rules, today);
    ValidationOutcome(rows[1], rules, today);
    ValidationOutcome(rows[2], rules, today);
  }

  /** Validation only reads the amount and the date it never writes, so
      running it again with the same rule text and day changes nothing. */
  lemma ValidationIdempotent(rows: seq<Row>, rules: string, today: int)
    ensures Validated(Validated(rows, rules, today), rules, today) == Validated(rows, rules, today)
  {
    var once := Validated(rows, rules, today);
    forall i | 0 <= i < |rows|
      ensures ValidatedRow(once[i], rules, today) == once[i]
    {
      ValidationOutcome(rows[i], rules, today);
      ValidationOutcome(once[i], rules, today);
    }
  }

  /** Validation of a table, column assignment by column assignment:
      the reset of the two columns, then one masked update per enabled rule. */
  method ValidateTransactions(table: array<Row>, rules: string, today: int)
    modifies table
    ensures table[..] == Validated(old(table[..]), rules, today)
  {
    var i := 0;
    while i < table.Length
      invariant 0 <= i <= table.Length
      invariant forall k :: 0 <= k < i ==> table[k] == Reset(old(table[k]))
      invariant forall k :: i <= k < table.Length ==> table[k] == old(table[k])
    {
      table[i] := table[i].(valid := true, remediation := NoIssues);
      i := i + 1;
    }
    // Re-parsing the date column leaves a model date as it is: a date that
    // did not parse is already `None`.
    ghost var reset := table[..];
    if Contains(rules, Phrase(NegativeAmount)) {
      MarkRows(table, NegativeAmount, today);
    }
    ghost var afterNegative := table[..];
    if Contains(rules, Phrase(FutureDate)) {
      MarkRows(table, FutureDate, today);
    }
    ghost var afterDate := table[..];
    if Contains(rules, Phrase(HighValue)) {
      MarkRows(table, HighValue, today);
    }
    forall k | 0 <= k < table.Length
      ensures table[k] == ValidatedRow(old(table[k]), rules, today)
    {
      assert reset[k] == Reset(old(table[k]));
      assert afterNegative[k] == Check(reset[k], NegativeAmount, rules, today);
      assert afterDate[k] == Check(afterNegative[k], FutureDate, rules, today);
      assert table[k] == Check(afterDate[k], HighValue, rules, today);
      CheckAllSteps(reset[k], rules, today);
    }
  }

  /** The three blocks in the order the rule list gives. */
  lemma CheckAllSteps(row: Row, rules: string, today: int)
    ensures CheckAll(row, RuleOrder, rules, today) ==
      Check(Check(Check(row, NegativeAmount, rules, today), FutureDate, rules, today), HighValue, rules, today)
  {
    assert RuleOrder[1..] == [FutureDate, HighValue];
    assert RuleOrder[1..][1..] == [HighValue];
    assert RuleOrder[1..][1..][1..] == [];
  }

  /** The two masked column assignments of one rule: the rows its predicate
      selects become invalid and get the rule's remediation text. */
  method MarkRows(table: array<Row>, rule: Rule, today: int)
    modifies table
    ensures forall k :: 0 <= k < table.Length ==> table[k] == Mark(old(table[k]), rule, today)
  {
    var i := 0;
    while i < table.Length
      invariant 0 <= i <= table.Length
      invariant forall k :: 0 <= k < i ==> table[k] == Mark(old(table[k]), rule, today)
      invariant forall k :: i <= k < table.Length ==> table[k] == old(table[k])
    {
      if Violates(rule, table[i], today) {
        table[i] := table[i].(valid := false, remediation := Hint(rule));
      }
      i := i + 1;
    }
  }
}
