/** The header clean-up that `load_data` applies to the columns of an
    uploaded transaction table: strip surrounding whitespace, lower-case,
    rename the two known aliases, and require the amount and date columns. */
module Headers {
  import opened Wrappers

  const AmountColumn := "Transaction_Amount"
  const DateColumn := "Transaction_Date"
  const AmountAlias := "transaction_amount"
  const DateAlias := "transaction_date"

  /** The two load failures, each as the loader's report shows the raised
      `KeyError`: Python renders a `KeyError` as the repr of its argument, so
      the amount message is wrapped in double quotes (it holds single
      quotes) and the missing date column name in single quotes. */
  const MissingAmountError :=
    "\"Column 'Transaction_Amount' not found. Check CSV headers for hidden spaces or encoding issues.\""
  const MissingDateError := "'Transaction_Date'"

  /** The characters Python's `str.isspace` accepts. */
  predicate IsSpace(c: char)
  {
    c == ' ' || ('\t' <= c <= '\r') || ('\U{1c}' <= c <= '\U{1f}')
    || c == '\U{85}' || c == '\U{a0}' || c == '\U{1680}'
    || ('\U{2000}' <= c <= '\U{200a}') || c == '\U{2028}' || c == '\U{2029}'
    || c == '\U{202f}' || c == '\U{205f}' || c == '\U{3000}'
  }

  /** Every character of `s` at an index in [from, to) is whitespace. */
  predicate AllSpace(s: string, from: int, to: int)
    requires 0 <= from && to <= |s|
  {
    forall i :: from <= i < to ==> IsSpace(s[i])
  }

  /** The number of whitespace characters `s` starts with. */
  function LeadingSpaces(s: string): (n: nat)
    ensures n <= |s| && AllSpace(s, 0, n)
    ensures n < |s| ==> !IsSpace(s[n])
    decreases |s|
  {
    if |s| > 0 && IsSpace(s[0]) then
      var rest := LeadingSpaces(s[1..]);
      SpaceInSuffix(s, 1, 0, rest);
      1 + rest
    else 0
  }

  /** The number of whitespace characters `s` ends with. */
  function TrailingSpaces(s: string): (n: nat)
    ensures n <= |s| && AllSpace(s, |s| - n, |s|)
    ensures n < |s| ==> !IsSpace(s[|s| - 1 - n])
    decreases |s|
  {
    if |s| > 0 && IsSpace(s[|s| - 1]) then
      var front := s[..|s| - 1];
      var rest := TrailingSpaces(front);
      assert forall i :: |front| - rest <= i < |front| ==> s[i] == front[i];
      1 + rest
    else 0
  }

  /** `r` is the slice of `s` that starts at `lo`, and every character of
      `s` outside that slice is whitespace. */
  predicate TrimmedAt(s: string, r: string, lo: int)
  {
    0 <= lo <= lo + |r| <= |s| && r == s[lo..lo + |r|]
    && AllSpace(s, 0, lo) && AllSpace(s, lo + |r|, |s|)
  }

  /** Python's `str.strip()` with no argument: a contiguous slice of `s`
      with only whitespace cut off around it and no whitespace left at either
      end of it. */
  function Strip(s: string): (r: string)
    ensures exists lo :: TrimmedAt(s, r, lo)
    ensures r == [] || (!IsSpace(r[0]) && !IsSpace(r[|r| - 1]))
  {
    var lo := LeadingSpaces(s);
    if lo == |s| then
      assert TrimmedAt(s, [], lo);
      []
    else
      var hi := |s| - TrailingSpaces(s);
      assert lo < hi;
      assert TrimmedAt(s, s[lo..hi], lo);
      s[lo..hi]
  }

  /** Whitespace found in the suffix `s[lo..]` is whitespace of `s`. */
  lemma SpaceInSuffix(s: string, lo: int, from: int, to: int)
    requires 0 <= lo <= |s| && 0 <= from && to <= |s| - lo
    requires AllSpace(s[lo..], from, to)
    ensures AllSpace(s, lo + from, lo + to)
  {
    forall i | lo + from <= i < lo + to
      ensures IsSpace(s[i])
    {
      assert s[i] == s[lo..][i - lo];
    }
  }

  predicate IsUpper(c: char)
  {
    'A' <= c <= 'Z'
  }

  function LowerChar(c: char): char
  {
    if IsUpper(c) then (c as int - 'A' as int + 'a' as int) as char else c
  }

  /** Lower-cases the ASCII letters of `s`: the result has the same length,
      agrees with `s` up to case, and holds no upper-case ASCII letter. */
  function Lower(s: string): (r: string)
    ensures |r| == |s|
    ensures forall i :: 0 <= i < |s| ==> !IsUpper(r[i])
    ensures forall i :: 0 <= i < |s| ==> LowerChar(r[i]) == LowerChar(s[i])
    ensures forall i :: 0 <= i < |s| && !IsUpper(s[i]) ==> r[i] == s[i]
  {
    seq(|s|, i requires 0 <= i < |s| => LowerChar(s[i]))
  }

  /** One header name, stripped and then lower-cased. */
  function NormaliseHeader(h: string): (n: string)
    ensures |n| <= |h|
    ensures forall k :: 0 <= k < |n| ==> !IsUpper(n[k])
    ensures n == [] || (!IsSpace(n[0]) && !IsSpace(n[|n| - 1]))
  {
    Lower(Strip(h))
  }

  /** The two aliases the loader renames; every other name is kept, and no
      alias survives the renaming. */
  function Rename(h: string): (c: string)
    ensures c != h ==> (h, c) == (DateAlias, DateColumn) || (h, c) == (AmountAlias, AmountColumn)
    ensures c != DateAlias && c != AmountAlias
  {
    if h == DateAlias then DateColumn
    else if h == AmountAlias then AmountColumn
    else h
  }

  /** The cleaned column names, in header order: column i is canonical
      exactly when header i normalises to its alias, no alias is left, and
      every other name is the normalised header. */
  function CleanColumns(headers: seq<string>): (columns: seq<string>)
    ensures |columns| == |headers|
    ensures forall i :: 0 <= i < |columns| ==> columns[i] != AmountAlias && columns[i] != DateAlias
    ensures forall i :: 0 <= i < |columns| && columns[i] != AmountColumn && columns[i] != DateColumn ==>
      columns[i] == NormaliseHeader(headers[i])
    ensures forall i :: 0 <= i < |columns| ==>
      (columns[i] == AmountColumn <==> NormaliseHeader(headers[i]) == AmountAlias) &&
      (columns[i] == DateColumn <==> NormaliseHeader(headers[i]) == DateAlias)
  {
    forall i | 0 <= i < |headers| {
      NormalisedIsLowerCase(headers[i]);
    }
    seq(|headers|, i requires 0 <= i < |headers| => Rename(NormaliseHeader(headers[i])))
  }

  /** The column names of the loaded table, or the error the loader reports.
      The amount column is checked first; the date column is needed next,
      when the loader converts it to timestamps. */
  function NormaliseColumns(headers: seq<string>): (r: Result<seq<string>>)
    ensures r.Ok? <==>
      (exists i :: 0 <= i < |headers| && NormaliseHeader(headers[i]) == AmountAlias) &&
      (exists i :: 0 <= i < |headers| && NormaliseHeader(headers[i]) == DateAlias)
    ensures (forall i :: 0 <= i < |headers| ==> NormaliseHeader(headers[i]) != AmountAlias) ==>
      r == Err(MissingAmountError)
    ensures r.Err? && (exists i :: 0 <= i < |headers| && NormaliseHeader(headers[i]) == AmountAlias) ==>
      r.error == MissingDateError
    ensures r.Ok? ==> |r.value| == |headers| && AmountColumn in r.value && DateColumn in r.value
    ensures r.Ok? ==> forall i :: 0 <= i < |headers| ==> r.value[i] == Rename(NormaliseHeader(headers[i]))
  {
    var columns := CleanColumns(headers);
    assert forall i :: 0 <= i < |headers| ==> columns[i] == Rename(NormaliseHeader(headers[i]));
    RenamedIsCanonical(headers, AmountAlias, AmountColumn);
    RenamedIsCanonical(headers, DateAlias, DateColumn);
    if AmountColumn !in columns then Err(MissingAmountError)
    else if DateColumn !in columns then Err(MissingDateError)
    else Ok(columns)
  }

  /** A canonical name, which starts with an upper-case letter, appears among
      the cleaned columns exactly when some header normalises to its alias. */
  lemma RenamedIsCanonical(headers: seq<string>, alias: string, canonical: string)
    requires (alias, canonical) == (AmountAlias, AmountColumn) || (alias, canonical) == (DateAlias, DateColumn)
    ensures canonical in CleanColumns(headers) <==>
      exists i :: 0 <= i < |headers| && NormaliseHeader(headers[i]) == alias
  {
    var columns := CleanColumns(headers);
    forall i | 0 <= i < |headers|
      ensures columns[i] == canonical <==> NormaliseHeader(headers[i]) == alias
    {
      NormalisedIsLowerCase(headers[i]);
    }
    if canonical in columns {
      var i :| 0 <= i < |columns| && columns[i] == canonical;
      assert NormaliseHeader(headers[i]) == alias;
    }
  }

  /** A normalised header is never itself one of the canonical names, which
      start with an upper-case letter. */
  lemma NormalisedIsLowerCase(h: string)
    ensures NormaliseHeader(h) != AmountColumn && NormaliseHeader(h) != DateColumn
  {
    var n := NormaliseHeader(h);
    if n != [] {
      assert !IsUpper(n[0]);
    }
    assert IsUpper(AmountColumn[0]) && IsUpper(DateColumn[0]);
  }

  /** A header padded with spaces, as a spreadsheet export may write it, is
      recognised as the amount column. */
  lemma PaddedAmountHeader()
    ensures Rename(NormaliseHeader(" Transaction_Amount ")) == AmountColumn
  {
    StripPadded();
    LowerAmountColumn();
  }

  lemma StripPadded()
    ensures Strip(" Transaction_Amount ") == AmountColumn
  {
    var s := " Transaction_Amount ";
    assert s[1..][0] == 'T' && !IsSpace(s[1..][0]);
    assert LeadingSpaces(s[1..]) == 0;
    assert LeadingSpaces(s) == 1;
    assert s[..|s| - 1][|s| - 2] == 't' && !IsSpace(s[|s| - 2]);
    assert TrailingSpaces(s[..|s| - 1]) == 0;
    assert TrailingSpaces(s) == 1;
    assert s[1..|s| - 1] == AmountColumn;
  }

  lemma LowerAmountColumn()
    ensures Lower(AmountColumn) == AmountAlias
  {
  }
}
