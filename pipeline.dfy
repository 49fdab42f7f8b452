/** How the two engines are chained for one upload: the rule text the
    validation sees is the analyst's text joined to the generated
    continuation, and the validated table is what gets scored. */
module Pipeline {
  import opened Substring
  import opened Transactions
  import opened Validation
  import opened Anomalies

  /** The consolidated rule text: the uploaded rules, a newline, and the
      text the generative model produced (any string). */
  function Consolidate(uploaded: string, generated: string): (rules: string)
    ensures |rules| == |uploaded| + 1 + |generated|
    ensures rules[..|uploaded|] == uploaded && rules[|uploaded|] == '\n' &&
      rules[|uploaded| + 1..] == generated
  {
    uploaded + "\n" + generated
  }

  /** Whatever the model generates, every rule phrase of the uploaded text
      stays enabled, and so does every phrase the model itself writes. */
  lemma ConsolidatedKeepsPhrases(uploaded: string, generated: string, rule: Rule)
    ensures Contains(uploaded, Phrase(rule)) ==> Contains(Consolidate(uploaded, generated), Phrase(rule))
    ensures Contains(generated, Phrase(rule)) ==> Contains(Consolidate(uploaded, generated), Phrase(rule))
  {
    ContainsConcat(uploaded, "\n", Phrase(rule));
    ContainsConcat(uploaded + "\n", generated, Phrase(rule));
  }

  /** The generated text can only add violations: a row that the uploaded
      rules mark invalid stays invalid under the consolidated text. */
  lemma GeneratedTextOnlyAdds(row: Row, uploaded: string, generated: string, today: int)
    ensures !ValidatedRow(row, uploaded, today).valid ==>
      !ValidatedRow(row, Consolidate(uploaded, generated), today).valid
  {
    ValidationOutcome(row, uploaded, today);
    ValidationOutcome(row, Consolidate(uploaded, generated), today);
    ConsolidatedKeepsPhrases(uploaded, generated, NegativeAmount);
    ConsolidatedKeepsPhrases(uploaded, generated, FutureDate);
    ConsolidatedKeepsPhrases(uploaded, generated, HighValue);
  }

  /** A validated row with the anomaly columns reset: what the scoring
      engine receives. */
  function Prepared(row: Row, rules: string, today: int): Row
  {
    ResetAnomaly(ValidatedRow(row, rules, today))
  }

  /** What the two engines make of a row with a numeric amount: its
      validity is what validation gave it; its remediation is the
      investigation hint when the detector calls it an outlier and the
      validation text otherwise; its score is the closed form of the risk
      function; amount and date are the row's own. */
  predicate ProcessedFrom(out: Row, source: Row, rules: string, today: int, anomaly: int)
    requires source.amount.Numeric?
  {
    var checked := ValidatedRow(source, rules, today);
    var points := AmountPoints(source.amount.value);
    out.amount == source.amount && out.date == source.date &&
    out.valid == checked.valid &&
    out.remediation == (if anomaly == Outlier then Investigate else checked.remediation) &&
    out.anomalyReason == (if anomaly == Outlier then UnusualAmount else NoAnomaly) &&
    out.anomalyScore == anomaly &&
    out.riskScore == (if anomaly == Outlier then (if 7 + points < 10 then 7 + points else 10) else 1 + points)
  }

  /** One row through validation, the reset of the anomaly columns and
      scoring. */
  lemma ValidateThenScoreRow(row: Row, rules: string, today: int, anomaly: int)
    requires row.amount.Numeric?
    ensures ProcessedFrom(ScoreRow(Prepared(row, rules, today), anomaly), row, rules, today, anomaly)
  {
    ValidationOutcome(row, rules, today);
    RiskClosedForm(row.amount.value, anomaly);
  }

  /** Validation followed by scoring, over a whole table: the k-th output
      row is processed from the k-th row with a numeric amount. */
  lemma ValidateThenScore(rows: seq<Row>, rules: string, today: int, labels: seq<int>)
    requires |labels| == |Survivors(rows)|
    ensures |Survivors(MapRows(Validated(rows, rules, today), ResetAnomaly))| == |Survivors(rows)|
    ensures forall k :: 0 <= k < |Survivors(rows)| ==> Survivors(rows)[k].amount.Numeric?
    ensures forall k :: 0 <= k < |Survivors(rows)| ==>
      ProcessedFrom(Scored(Survivors(MapRows(Validated(rows, rules, today), ResetAnomaly)), labels)[k],
                    Survivors(rows)[k], rules, today, labels[k])
  {
    var step := (r: Row) => Prepared(r, rules, today);
    assert forall r: Row :: step(r).amount == r.amount;
    var scoredInput := MapRows(Validated(rows, rules, today), ResetAnomaly);
    assert scoredInput == MapRows(rows, step) by {
      forall k | 0 <= k < |rows| ensures scoredInput[k] == step(rows[k]) { }
    }
    SurvivorsMap(rows, step);
    var kept := Survivors(rows);
    forall k | 0 <= k < |kept|
      ensures kept[k].amount.Numeric?
      ensures ProcessedFrom(Scored(Survivors(scoredInput), labels)[k], kept[k], rules, today, labels[k])
    {
      assert kept[k] in kept;
      assert Scored(Survivors(scoredInput), labels)[k] == ScoreRow(step(kept[k]), labels[k]);
      ValidateThenScoreRow(kept[k], rules, today, labels[k]);
    }
  }
}
