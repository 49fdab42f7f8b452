/** Anomaly annotation and risk scoring (`detect_anomalies`): rows whose
    amount is not numeric are dropped, the outlier detector labels each
    remaining row -1 (outlier) or +1, outliers get an anomaly reason and an
    investigation hint, and every remaining row gets a risk score in 1..10.
    The detector itself is outside the model: its labels are an input. */
module Anomalies {
  import opened Wrappers
  import opened Transactions

  const NoAnomaly := "No anomaly detected."
  const UnusualAmount := "Unusual transaction amount detected."
  const Investigate := "Investigate unusual transaction. Cross-check with customer."
  /** The detector cannot be fitted on zero rows; the library raises, and the
      model reports this error instead. */
  const EmptyTableError := "no rows with a numeric amount to fit the outlier detector on"

  /** The detector's label for an outlier. */
  const Outlier := -1

  /** `calculate_risk`: a base of 6 for an outlier and 1 otherwise, one
      point above 500, one more above 1000, two more above 5000, one more
      when the row carries the unusual-amount reason, capped at 10. */
  function CalculateRisk(amount: Amount, anomalyScore: int, anomalyReason: string): (risk: int)
    ensures 1 <= risk <= 10
    ensures anomalyScore == Outlier && anomalyReason == UnusualAmount ==> risk >= 7
    ensures anomalyScore != Outlier && anomalyReason != UnusualAmount ==> risk <= 5
  {
    var base := if anomalyScore == Outlier then 6 else 1;
    var overHalf := base + (if Above(amount, 500.0) then 1 else 0);
    var overThousand := overHalf + (if Above(amount, 1000.0) then 1 else 0);
    var overFive := overThousand + (if Above(amount, 5000.0) then 2 else 0);
    var flagged := overFive + (if anomalyReason == UnusualAmount then 1 else 0);
    if flagged < 10 then flagged else 10
  }

  /** Reference definition: the points an amount adds to the score. */
  function AmountPoints(amount: real): int
  {
    if amount > 5000.0 then 4
    else if amount > 1000.0 then 2
    else if amount > 500.0 then 1
    else 0
  }

  /** The score of a scored row in closed form: 1 plus the amount points for
      a normal row, 7 plus the amount points, capped at 10, for an outlier. */
  lemma RiskClosedForm(amount: real, anomaly: int)
    ensures CalculateRisk(Numeric(amount), anomaly, if anomaly == Outlier then UnusualAmount else NoAnomaly) ==
      if anomaly == Outlier then
        (if 7 + AmountPoints(amount) < 10 then 7 + AmountPoints(amount) else 10)
      else 1 + AmountPoints(amount)
  {
  }

  /** For a fixed label and reason the score never drops as the amount grows. */
  lemma RiskMonotone(a: real, b: real, anomalyScore: int, anomalyReason: string)
    requires a <= b
    ensures CalculateRisk(Numeric(a), anomalyScore, anomalyReason) <=
      CalculateRisk(Numeric(b), anomalyScore, anomalyReason)
  {
  }

  /** Every outlier outranks every normal row, whatever the two amounts. */
  lemma OutlierOutranksNormal(a: Amount, b: Amount, anomaly: int)
    requires anomaly != Outlier
    ensures CalculateRisk(b, anomaly, NoAnomaly) < CalculateRisk(a, Outlier, UnusualAmount)
  {
  }

  /** Among unflagged rows the amounts 100, 500, 1000 and 6000 score 1, 1,
      2 and 5, so 6000 scores strictly above 100. */
  lemma UnflaggedAmountsExample()
    ensures CalculateRisk(Numeric(100.0), 1, NoAnomaly) == 1
    ensures CalculateRisk(Numeric(500.0), 1, NoAnomaly) == 1
    ensures CalculateRisk(Numeric(1000.0), 1, NoAnomaly) == 2
    ensures CalculateRisk(Numeric(6000.0), 1, NoAnomaly) == 5
  {
  }

  /** The drop of rows without an amount: the rows with a numeric amount,
      in their original order. */
  function Survivors(rows: seq<Row>): (kept: seq<Row>)
    ensures |kept| <= |rows|
    ensures forall r :: r in kept ==> r in rows && r.amount.Numeric?
    ensures forall r :: r in rows && r.amount.Numeric? ==> r in kept
    decreases |rows|
  {
    if rows == [] then []
    else
      var last := rows[|rows| - 1];
      Survivors(rows[..|rows| - 1]) + (if last.amount.Numeric? then [last] else [])
  }

  /** Dropping rows keeps their relative order: it distributes over
      concatenation. */
  lemma {:induction false} SurvivorsConcat(a: seq<Row>, b: seq<Row>)
    ensures Survivors(a + b) == Survivors(a) + Survivors(b)
    decreases |b|
  {
    if b == [] {
      assert a + b == a;
    } else {
      var front := b[..|b| - 1];
      var last := b[|b| - 1];
      var tail := if last.amount.Numeric? then [last] else [];
      assert (a + b)[..|a + b| - 1] == a + front;
      assert (a + b)[|a + b| - 1] == last;
      assert Survivors(a + b) == Survivors(a + front) + tail;
      assert Survivors(b) == Survivors(front) + tail;
      SurvivorsConcat(a, front);
      assert Survivors(a) + (Survivors(front) + tail) == (Survivors(a) + Survivors(front)) + tail;
    }
  }

  /** A table whose amounts are all numeric loses no row. */
  lemma {:induction false} SurvivorsAllNumeric(rows: seq<Row>)
    requires forall i :: 0 <= i < |rows| ==> rows[i].amount.Numeric?
    ensures Survivors(rows) == rows
    decreases |rows|
  {
    if rows != [] {
      var front := rows[..|rows| - 1];
      SurvivorsAllNumeric(front);
      assert rows[|rows| - 1].amount.Numeric?;
      assert rows == front + [rows[|rows| - 1]];
    }
  }

  /** The two columns scoring starts from. */
  function ResetAnomaly(row: Row): Row
  {
    row.(anomalyReason := NoAnomaly, riskScore := 1)
  }

  /** A labelled row with the outlier annotation applied. */
  function Flagged(row: Row): Row
  {
    if row.anomalyScore == Outlier
    then row.(anomalyReason := UnusualAmount, remediation := Investigate)
    else row
  }

  /** A row with its risk score filled in. */
  function WithRisk(row: Row): Row
  {
    row.(riskScore := CalculateRisk(row.amount, row.anomalyScore, row.anomalyReason))
  }

  /** What scoring makes of one surviving row, given its detector label:
      the label is stored, an outlier gets the unusual-amount reason and the
      investigation hint, every other row keeps its reason and remediation,
      and the risk score is computed last. */
  function ScoreRow(row: Row, anomaly: int): (out: Row)
    ensures out.amount == row.amount && out.date == row.date && out.valid == row.valid
    ensures out.anomalyScore == anomaly && 1 <= out.riskScore <= 10
    ensures anomaly == Outlier ==>
      out.anomalyReason == UnusualAmount && out.remediation == Investigate
    ensures anomaly != Outlier ==>
      out.anomalyReason == row.anomalyReason && out.remediation == row.remediation
  {
    WithRisk(Flagged(row.(anomalyScore := anomaly)))
  }

  /** The scored table: the surviving rows in order, each with its own
      label, the outlier reason where the label is -1, and a risk
      score between 1 and 10. */
  function Scored(rows: seq<Row>, labels: seq<int>): (out: seq<Row>)
    requires |labels| == |rows|
    ensures |out| == |rows|
    ensures forall i :: 0 <= i < |rows| ==>
      out[i].amount == rows[i].amount && out[i].date == rows[i].date &&
      out[i].anomalyScore == labels[i] && 1 <= out[i].riskScore <= 10 &&
      out[i].anomalyReason == (if labels[i] == Outlier then UnusualAmount else rows[i].anomalyReason)
  {
    seq(|rows|, i requires 0 <= i < |rows| => ScoreRow(rows[i], labels[i]))
  }

  /** On a row that came through the reset of the anomaly reason, the score
      is high exactly for outliers: at least 7 for label -1, at most 5 for
      any other label. */
  lemma ScoredRiskSeparatesOutliers(row: Row, anomaly: int)
    requires row.anomalyReason == NoAnomaly
    ensures anomaly == Outlier ==> ScoreRow(row, anomaly).riskScore >= 7
    ensures anomaly != Outlier ==> ScoreRow(row, anomaly).riskScore <= 5
  {
  }

  /** `detect_anomalies`. The reason and score columns are written on the
      caller's table before the non-numeric rows are dropped; the detector's
      labels then annotate a new table of the survivors. Fitting the detector
      on no rows at all fails. */
  method DetectAnomalies(table: array<Row>, labels: seq<int>) returns (result: Result<array<Row>>)
    requires |labels| == |Survivors(table[..])|
    modifies table
    ensures forall k :: 0 <= k < table.Length ==>
      table[k] == ResetAnomaly(old(table[k]))
    ensures |Survivors(table[..])| == |labels|
    ensures result.Err? <==> labels == []
    ensures result.Err? ==> result.error == EmptyTableError
    ensures result.Ok? ==> fresh(result.value) && result.value[..] == Scored(Survivors(table[..]), labels)
  {
    ResetAnomalyColumns(table);
    ResetSurvivors(old(table[..]), table[..]);
    // The conversion of the amount column to numbers leaves a model amount
    // as it is: a cell that does not convert is already `NotNumeric`.
    ghost var reset := table[..];
    var kept := DropNonNumeric(table);
    assert |kept| == |labels|;
    if |kept| == 0 {
      return Err(EmptyTableError);
    }
    var scored := AnnotateSurvivors(kept, labels);
    assert table[..] == reset;
    result := Ok(scored);
  }

  /** A new table of the surviving rows, annotated from the detector's
      labels: label, outlier flag and risk score, column by column. */
  method AnnotateSurvivors(kept: seq<Row>, labels: seq<int>) returns (scored: array<Row>)
    requires |labels| == |kept|
    ensures fresh(scored) && scored[..] == Scored(kept, labels)
  {
    scored := new Row[|kept|](k requires 0 <= k < |kept| => kept[k]);
    StoreLabels(scored, labels);
    FlagOutliers(scored);
    ScoreRisk(scored);
  }

  /** Every row gets the default anomaly reason and a risk score of 1. */
  method ResetAnomalyColumns(table: array<Row>)
    modifies table
    ensures forall k :: 0 <= k < table.Length ==>
      table[k] == ResetAnomaly(old(table[k]))
  {
    var i := 0;
    while i < table.Length
      invariant 0 <= i <= table.Length
      invariant forall k :: 0 <= k < i ==> table[k] == ResetAnomaly(old(table[k]))
      invariant forall k :: i <= k < table.Length ==> table[k] == old(table[k])
    {
      table[i] := ResetAnomaly(table[i]);
      i := i + 1;
    }
  }

  /** The rows with a numeric amount, collected in table order. */
  method DropNonNumeric(table: array<Row>) returns (kept: seq<Row>)
    ensures kept == Survivors(table[..])
  {
    kept := [];
    var i := 0;
    while i < table.Length
      invariant 0 <= i <= table.Length
      invariant kept == Survivors(table[..i])
    {
      assert table[..i + 1] == table[..i] + [table[i]];
      SurvivorsConcat(table[..i], [table[i]]);
      if table[i].amount.Numeric? {
        kept := kept + [table[i]];
      }
      i := i + 1;
    }
    assert table[..] == table[..table.Length];
  }

  /** The detector's labels become the anomaly-score column: row k gets
      label k. */
  method StoreLabels(scored: array<Row>, labels: seq<int>)
    requires |labels| == scored.Length
    modifies scored
    ensures forall k :: 0 <= k < scored.Length ==> scored[k] == old(scored[k]).(anomalyScore := labels[k])
  {
    var i := 0;
    while i < scored.Length
      invariant 0 <= i <= scored.Length
      invariant forall k :: 0 <= k < i ==> scored[k] == old(scored[k]).(anomalyScore := labels[k])
      invariant forall k :: i <= k < scored.Length ==> scored[k] == old(scored[k])
    {
      scored[i] := scored[i].(anomalyScore := labels[i]);
      i := i + 1;
    }
  }

  /** The two masked assignments on the rows labelled as outliers. */
  method FlagOutliers(scored: array<Row>)
    modifies scored
    ensures forall k :: 0 <= k < scored.Length ==> scored[k] == Flagged(old(scored[k]))
  {
    var i := 0;
    while i < scored.Length
      invariant 0 <= i <= scored.Length
      invariant forall k :: 0 <= k < i ==> scored[k] == Flagged(old(scored[k]))
      invariant forall k :: i <= k < scored.Length ==> scored[k] == old(scored[k])
    {
      if scored[i].anomalyScore == Outlier {
        scored[i] := scored[i].(anomalyReason := UnusualAmount, remediation := Investigate);
      }
      i := i + 1;
    }
  }

  /** The risk function applied to every row, in place. */
  method ScoreRisk(scored: array<Row>)
    modifies scored
    ensures forall k :: 0 <= k < scored.Length ==> scored[k] == WithRisk(old(scored[k]))
  {
    var i := 0;
    while i < scored.Length
      invariant 0 <= i <= scored.Length
      invariant forall k :: 0 <= k < i ==> scored[k] == WithRisk(old(scored[k]))
      invariant forall k :: i <= k < scored.Length ==> scored[k] == old(scored[k])
    {
      scored[i] := WithRisk(scored[i]);
      i := i + 1;
    }
  }

  /** Applies `f` to every row. */
  function MapRows(rows: seq<Row>, f: Row -> Row): (out: seq<Row>)
    ensures |out| == |rows|
  {
    seq(|rows|, k requires 0 <= k < |rows| => f(rows[k]))
  }

  /** Dropping the non-numeric rows commutes with any row update that leaves
      the amount alone. */
  lemma {:induction false} SurvivorsMap(rows: seq<Row>, f: Row -> Row)
    requires forall r :: f(r).amount == r.amount
    ensures Survivors(MapRows(rows, f)) == MapRows(Survivors(rows), f)
    decreases |rows|
  {
    if rows != [] {
      var front := rows[..|rows| - 1];
      var mapped := MapRows(rows, f);
      assert mapped[..|mapped| - 1] == MapRows(front, f);
      SurvivorsMap(front, f);
      var last := rows[|rows| - 1];
      var tail := if last.amount.Numeric? then [last] else [];
      assert Survivors(rows) == Survivors(front) + tail;
      assert MapRows(Survivors(front) + tail, f) == MapRows(Survivors(front), f) + MapRows(tail, f);
    }
  }

  lemma ResetSurvivors(before: seq<Row>, after: seq<Row>)
    requires |before| == |after|
    requires forall k :: 0 <= k < |after| ==> after[k] == ResetAnomaly(before[k])
    ensures |Survivors(after)| == |Survivors(before)|
  {
    assert after == MapRows(before, ResetAnomaly);
    SurvivorsMap(before, ResetAnomaly);
  }
}
