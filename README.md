# Regulatory compliance assistant — validation and risk scoring

This project models the core of a small compliance tool
(`code/src/compliance_app.py`). The tool loads a table of financial transactions
and cleans up its column headers. It checks each row against three regulatory rules.
A rule is switched on only when its fixed phrase appears in a free-text rule
document. Finally it flags statistical outliers and gives every row a risk score.

The working table is an `array<Row>`. A `Row` has an amount, an optional date
(`None` for a timestamp that did not parse) and the annotation columns: validity,
remediation suggestion, anomaly reason, anomaly label and risk score. The two
engines update the table in place, one column assignment after another, as the
source does.

- `Validation` models `validate_transaction`. It resets every row to valid with
  "No issues detected.". It then runs the negative-amount, future-date and
  high-value rules in that order, each guarded by substring containment of its
  phrase. The reference definition `LastFired` gives the last rule that fires,
  and the lemmas prove that validation's outcome is "invalid iff some enabled
  rule fires, hint of the last one". They also prove that an absent phrase
  changes nothing, that a null date never counts as a future date, and that
  validation is idempotent.
- `Anomalies` models `detect_anomalies`. It resets the anomaly columns on the
  caller's table and drops non-numeric amounts, keeping the order. It then
  stores the detector's labels, annotates outliers and computes `calculate_risk`.
  The risk function is proved bounded to 1..10, at least 7 for outliers, at most
  5 otherwise, monotone in the amount, and equal to a closed form.
- `Headers` models the header clean-up of `load_data`: Python's `strip`, then
  lower-casing, then the two alias renames, then the required columns.
- `Pipeline` models the consolidated rule text (uploaded text, a newline, generated
  text) and chains the two engines row by row.
- `Substring` holds the containment test, and `Wrappers` and `Transactions` hold
  the shared types.

"Today" is a parameter, dates are integers (days), and the outlier detector's
labels are an input sequence with one label per surviving row.

Three behaviours of the code are easy to misread, and the model keeps them as written:
- The generated rule text is used as rules. The consolidated text, which
  includes the generative model's output, is what validation searches
  (`compliance_app.py:110-112`). So the generated text can switch rules on
  (`Pipeline.ConsolidatedKeepsPhrases`).
- Loading fails when the amount column is missing, and also when the date
  column is missing. Line 19 indexes `Transaction_Date`, and the resulting
  `KeyError` takes the same error path.
- An empty table after the drop is not reported with a message of the tool's
  own. The outlier detector raises on zero samples, and the model returns an error in
  its place.

## Model

| member | source | states |
|---|---|---|
| `Substring.Contains` | code/src/compliance_app.py:50-60 | Python's `phrase in text`: the empty phrase is always found and an occurrence at the very end is found; `ContainsIff` gives the full characterisation |
| `Substring.ContainsWitness` | code/src/compliance_app.py:50 | whenever the phrase test succeeds there is a position where the phrase occurs |
| `Substring.OccursContains` | code/src/compliance_app.py:50 | the phrase test succeeds for a phrase occurring at any position |
| `Substring.ContainsIff` | code/src/compliance_app.py:50 | the phrase test holds exactly when the phrase occurs at some position of the rule text |
| `Substring.ContainsConcat` | code/src/compliance_app.py:110 | text joined before or after a contained phrase never hides it |
| `Substring.NotContainsLonger` | code/src/compliance_app.py:50 | a text never contains a phrase longer than itself |
| `Headers.LeadingSpaces` | code/src/compliance_app.py:13 | the count of leading characters is all whitespace and is followed by a non-space (or the end) |
| `Headers.TrailingSpaces` | code/src/compliance_app.py:13 | the count of trailing characters is all whitespace and is preceded by a non-space (or the start) |
| `Headers.Strip` | code/src/compliance_app.py:13 | `str.strip()`: a slice of the header with only whitespace cut off around it and none left at its ends |
| `Headers.NormaliseHeader` | code/src/compliance_app.py:13 | the normalised name is no longer than the header, holds no upper-case letter and has no whitespace at either end |
| `Headers.Rename` | code/src/compliance_app.py:14-15 | only `transaction_date` and `transaction_amount` change, to `Transaction_Date` and `Transaction_Amount`; no alias is left afterwards |
| `Headers.CleanColumns` | code/src/compliance_app.py:13-15 | one cleaned name per header, in header order; column i is `Transaction_Amount` (`Transaction_Date`) exactly when header i normalises to `transaction_amount` (`transaction_date`); no alias is left, and every other name is the normalised header; `RenamedIsCanonical` says when the canonical names appear |
| `Headers.Lower` | code/src/compliance_app.py:13 | same length, equal up to case, and no upper-case letter left |
| `Headers.NormaliseColumns` | code/src/compliance_app.py:13-19 | loading succeeds iff some header normalises to `transaction_amount` and some to `transaction_date`; with no amount header it fails with the amount message; with the amount header but no date header it fails with the missing-date `KeyError`; on success column i is header i stripped, lower-cased and renamed, and both canonical names are present |
| `Headers.RenamedIsCanonical` | code/src/compliance_app.py:14-16 | a canonical column name is present after renaming iff some header normalises to its alias |
| `Headers.PaddedAmountHeader` | code/src/compliance_app.py:13-16 | `" Transaction_Amount "` becomes `Transaction_Amount` |
| `Validation.ValidatedRow` | code/src/compliance_app.py:45-65 | validation changes only the validity and remediation columns, and a row ends valid exactly when its remediation is "No issues detected."; `ValidationOutcome` says which rule decides |
| `Validation.Validated` | code/src/compliance_app.py:45-65 | the validated table has one row per input row, in order, with amount and date kept and valid exactly when the remediation is "No issues detected." |
| `Validation.CheckAllOutcome` | code/src/compliance_app.py:50-63 | running the guarded rule blocks in order changes only validity and remediation; invalid iff already invalid or some rule fired; remediation is the hint of the last rule that fired |
| `Validation.ValidationOutcome` | code/src/compliance_app.py:45-65 | after validation a row is invalid iff an enabled rule's predicate holds (amount < 0, date after today, amount > 5000), its remediation is the hint of the last such rule in the order negative, future date, high value (else "No issues detected."), and no other column changes |
| `Validation.OnlyNegativePhrase` | code/src/compliance_app.py:50-63 | with only the negative-amount phrase present, exactly the negative rows become invalid, with the customer-verification hint |
| `Validation.HighValueIgnoredWithoutPhrase` | code/src/compliance_app.py:50-63 | with the rule text equal to the negative-amount phrase, a 6000 row with a past date stays valid with "No issues detected." |
| `Validation.NullDateNeverFuture` | code/src/compliance_app.py:48-58 | a row whose date did not parse is invalid only through the amount rules and never gets the date hint |
| `Validation.LaterRuleWins` | code/src/compliance_app.py:51-63 | a negative future-dated row gets the date hint; a future-dated row over 5000 gets the high-value hint |
| `Validation.ThreeRowScenario` | code/src/compliance_app.py:45-65 | rows (100, past), (-10, past), (6000, future) with all phrases enabled end valid, invalid with the customer hint, and invalid with the high-value hint |
| `Validation.ValidationIdempotent` | code/src/compliance_app.py:46-47 | validating a validated table again with the same rule text and day gives the same table |
| `Validation.ValidateTransactions` | code/src/compliance_app.py:45-65 | the in-place column updates leave the table equal to the row-by-row validation of the old table |
| `Validation.MarkRows` | code/src/compliance_app.py:51-53 | one masked pair of assignments: matching rows become invalid with the rule's hint, other rows are unchanged |
| `Anomalies.CalculateRisk` | code/src/compliance_app.py:80-92 | the score is in 1..10; at least 7 for an outlier with the unusual-amount reason; at most 5 for a row that has neither the outlier label nor that reason |
| `Anomalies.RiskClosedForm` | code/src/compliance_app.py:80-92 | a scored row's risk is 1 + amount points for a normal row and min(7 + amount points, 10) for an outlier, with 0, 1, 2 or 4 points above 0, 500, 1000 and 5000 |
| `Anomalies.RiskMonotone` | code/src/compliance_app.py:84-89 | for a fixed label and reason the score never decreases as the amount grows |
| `Anomalies.OutlierOutranksNormal` | code/src/compliance_app.py:80-92 | every outlier scores strictly above every normal row, whatever the amounts |
| `Anomalies.UnflaggedAmountsExample` | code/src/compliance_app.py:80-92 | unflagged amounts 100, 500, 1000, 6000 score 1, 1, 2, 5 |
| `Anomalies.Survivors` | code/src/compliance_app.py:72-73 | the kept rows are exactly the rows with a numeric amount |
| `Anomalies.SurvivorsConcat` | code/src/compliance_app.py:73 | dropping keeps the original order: it distributes over concatenation |
| `Anomalies.SurvivorsAllNumeric` | code/src/compliance_app.py:73 | a table whose amounts are all numeric loses no row |
| `Anomalies.SurvivorsMap` | code/src/compliance_app.py:70-73 | the drop commutes with any row update that keeps the amount |
| `Anomalies.ScoreRow` | code/src/compliance_app.py:75-94 | a scored row keeps amount, date and validity and stores its label; an outlier gets the unusual-amount reason and the investigation hint; any other row keeps its reason and remediation; the score is in 1..10 |
| `Anomalies.Scored` | code/src/compliance_app.py:73-94 | the scored table has one row per surviving row, in order, with amount and date kept, its own label stored, the unusual-amount reason where the label is -1 and the old reason elsewhere, and a risk score in 1..10 |
| `Anomalies.ScoredRiskSeparatesOutliers` | code/src/compliance_app.py:70-92 | after the reason reset, label -1 scores at least 7 and any other label at most 5 |
| `Anomalies.DetectAnomalies` | code/src/compliance_app.py:69-95 | the caller's rows get the default reason and score 1; fails exactly when no row has a numeric amount; otherwise returns a new table of the numeric rows in order, each scored with its own label |
| `Anomalies.ResetAnomalyColumns` | code/src/compliance_app.py:70-71 | every row gets "No anomaly detected." and score 1, nothing else changes |
| `Anomalies.DropNonNumeric` | code/src/compliance_app.py:72-73 | returns the numeric rows of the table in table order |
| `Anomalies.AnnotateSurvivors` | code/src/compliance_app.py:75-94 | the new table holds the surviving rows in order, each annotated with its own label, the outlier flag for label -1 and its risk score |
| `Anomalies.StoreLabels` | code/src/compliance_app.py:75 | row k gets the k-th label, nothing else changes |
| `Anomalies.FlagOutliers` | code/src/compliance_app.py:76-78 | rows labelled -1 get the unusual-amount reason and the investigation hint, other rows are unchanged |
| `Anomalies.ScoreRisk` | code/src/compliance_app.py:94 | every row gets the risk computed from its own amount, label and reason |
| `Pipeline.Consolidate` | code/src/compliance_app.py:110 | the consolidated text starts with the uploaded text, has a newline right after it, and the rest is the generated text |
| `Pipeline.ConsolidatedKeepsPhrases` | code/src/compliance_app.py:110-112 | a phrase in the uploaded text or in the generated text stays enabled in the consolidated text |
| `Pipeline.GeneratedTextOnlyAdds` | code/src/compliance_app.py:110-112 | a row invalid under the uploaded rules stays invalid under the consolidated text, whatever the generated text |
| `Pipeline.ValidateThenScoreRow` | code/src/compliance_app.py:112-113 | one numeric row through both engines keeps its validation verdict; its remediation is the investigation hint if it is an outlier and the validation text otherwise; its score is the closed form |
| `Pipeline.ValidateThenScore` | code/src/compliance_app.py:112-113 | over a whole table, the k-th output row is the k-th numeric input row processed as in `ValidateThenScoreRow` |

## Left out

- The Streamlit interface and file upload (`compliance_ui`, lines 99-114) are presentation and I/O. Only the rule-text concatenation at line 110 is modelled.
- `extract_rules` (lines 35-41) calls a text-generation model. Its output is an arbitrary string parameter of `Pipeline.Consolidate`.
- `load_regulatory_rules` (lines 27-31) only decodes bytes. It is not modelled.
- `load_data` (lines 9-23): CSV parsing, the diagnostic print and the `st.error` report are not modelled. `Headers.NormaliseColumns` returns the error text instead of an empty table.
- Duplicate column names are not modelled: header mangling by the CSV reader, or two headers that normalise to the same name. Only membership of the required names is.
- Date parsing (`pd.to_datetime`, lines 19 and 48): dates are `Option<int>`, with `None` for values that did not parse.
- Time: `pd.Timestamp.today()` becomes the `today` parameter. The source reads the clock twice (lines 56 and 58); the model uses a single instant for both.
- Amounts are exact reals, not floating point. A missing or unconvertible amount is `NotNumeric`, and every comparison on it is false (NaN).
- Text cells left in the amount column are not modelled. The comparisons at lines 51, 52, 61 and 62 raise on such a column.
- The IsolationForest fit (lines 74-75) is a randomised floating-point model. Its labels are an input to `Anomalies.DetectAnomalies`, one per surviving row; only the failure on zero rows is modelled.
- Headers.Lower: maps only the ASCII letters A-Z. Python's `str.lower` also lower-cases other Unicode letters; the alias names are ASCII, so recognition of the two required columns does not depend on the difference.
