/** Plain substring containment, the `phrase in text` test the validation
    rules use on the consolidated rule text. */
module Substring {

  /** `phrase` occurs in `text` starting at index `i`. */
  predicate OccursAt(text: string, phrase: string, i: int)
  {
    0 <= i && i + |phrase| <= |text| && text[i..i + |phrase|] == phrase
  }

  /** Scans the start positions of `text` from left to right. The empty
      phrase is contained in every text, as in Python, and the scan reaches
      an occurrence at the very end. */
  predicate Contains(text: string, phrase: string)
    ensures phrase == [] ==> Contains(text, phrase)
    ensures |phrase| <= |text| && text[|text| - |phrase|..] == phrase ==> Contains(text, phrase)
    decreases |text|
  {
    assert |phrase| < |text| ==> text[1..][|text| - 1 - |phrase|..] == text[|text| - |phrase|..];
    (|phrase| <= |text| && text[..|phrase|] == phrase)
    || (|text| > 0 && Contains(text[1..], phrase))
  }

  /** A successful scan points at an occurrence. */
  lemma {:induction false} ContainsWitness(text: string, phrase: string) returns (i: int)
    requires Contains(text, phrase)
    ensures OccursAt(text, phrase, i)
    decreases |text|
  {
    if |phrase| <= |text| && text[..|phrase|] == phrase {
      i := 0;
    } else {
      var j := ContainsWitness(text[1..], phrase);
      assert text[1..][j..j + |phrase|] == text[j + 1..j + 1 + |phrase|];
      i := j + 1;
    }
  }

  /** The scan reaches every occurrence. */
  lemma {:induction false} OccursContains(text: string, phrase: string, i: int)
    requires OccursAt(text, phrase, i)
    ensures Contains(text, phrase)
    decreases i
  {
    if i > 0 {
      assert text[1..][i - 1..i - 1 + |phrase|] == text[i..i + |phrase|];
      OccursContains(text[1..], phrase, i - 1);
    } else {
      assert text[..|phrase|] == phrase;
    }
  }

  /** The scan finds the phrase exactly when it occurs at some position. */
  lemma ContainsIff(text: string, phrase: string)
    ensures Contains(text, phrase) <==> exists i :: OccursAt(text, phrase, i)
  {
    if Contains(text, phrase) {
      var i := ContainsWitness(text, phrase);
    }
    if exists i :: OccursAt(text, phrase, i) {
      var i :| OccursAt(text, phrase, i);
      OccursContains(text, phrase, i);
    }
  }

  /** Text placed before or after a contained phrase does not hide it. */
  lemma ContainsConcat(a: string, b: string, phrase: string)
    ensures Contains(a, phrase) ==> Contains(a + b, phrase)
    ensures Contains(b, phrase) ==> Contains(a + b, phrase)
  {
    ContainsIff(a, phrase);
    ContainsIff(b, phrase);
    ContainsIff(a + b, phrase);
    if Contains(a, phrase) {
      var i :| OccursAt(a, phrase, i);
      assert (a + b)[i..i + |phrase|] == a[i..i + |phrase|];
      assert OccursAt(a + b, phrase, i);
    }
    if Contains(b, phrase) {
      var i :| OccursAt(b, phrase, i);
      assert (a + b)[|a| + i..|a| + i + |phrase|] == b[i..i + |phrase|];
      assert OccursAt(a + b, phrase, |a| + i);
    }
  }

  /** A text never contains a phrase longer than itself. */
  lemma {:induction false} NotContainsLonger(text: string, phrase: string)
    requires |text| < |phrase|
    ensures !Contains(text, phrase)
    decreases |text|
  {
    if |text| > 0 {
      NotContainsLonger(text[1..], phrase);
    }
  }
}
