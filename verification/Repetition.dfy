/** isWhisperRepetitionLoop of cmd/dictad/asrmonitor.go, on a text of characters. */
module Repetition {

  /** ASCII letters that occur doubled in English words. */
  predicate DoubleAllowed(c: char) {
    c in "abcdefgiklmnoprstuz"
  }

  /** The same letter, ignoring case, at positions i and i - 1. */
  predicate Repeats(text: string, lower: char -> char, isLetter: char -> bool, i: int)
    requires 0 < i < |text|
  {
    isLetter(lower(text[i])) && lower(text[i]) == lower(text[i - 1])
  }

  /** A letter three times in a row, or twice in a row when English never doubles it. */
  predicate Degenerate(text: string, lower: char -> char, isLetter: char -> bool) {
    exists i :: 0 < i < |text| && DegenerateAt(text, lower, isLetter, i)
  }

  predicate DegenerateAt(text: string, lower: char -> char, isLetter: char -> bool, i: int)
    requires 0 < i < |text|
  {
    && Repeats(text, lower, isLetter, i)
    && (!DoubleAllowed(lower(text[i])) || (i > 1 && Repeats(text, lower, isLetter, i - 1)))
  }

  /** Length of the run of one letter that ends at position i. */
  function RunAt(text: string, lower: char -> char, isLetter: char -> bool, i: nat): nat
    requires i < |text|
  {
    if !isLetter(lower(text[i])) then 0
    else if i > 0 && lower(text[i]) == lower(text[i - 1]) then RunAt(text, lower, isLetter, i - 1) + 1
    else 1
  }

  /**
   The scan: `nul` is the rune 0 the program keeps in `prev` between letters;
   it is no letter.
   */
  method IsRepetitionLoop(text: string, lower: char -> char, isLetter: char -> bool, nul: char) returns (found: bool)
    requires !isLetter(nul)
    ensures found <==> Degenerate(text, lower, isLetter)
  {
    var prev, run := nul, 0;
    var i := 0;
    while i < |text|
      invariant 0 <= i <= |text| && 0 <= run <= 2
      invariant i == 0 ==> prev == nul
      invariant i > 0 ==> prev == if isLetter(lower(text[i - 1])) then lower(text[i - 1]) else nul
      invariant run == 2 <==> i > 1 && Repeats(text, lower, isLetter, i - 1)
      invariant i > 0 && isLetter(lower(text[i - 1])) ==> run > 0
      invariant forall k :: 0 < k < i ==> !DegenerateAt(text, lower, isLetter, k)
    {
      var c := lower(text[i]);
      if !isLetter(c) {
        prev, run := nul, 0;
      } else if c == prev {
        run := run + 1;
        if run >= 3 {
          assert DegenerateAt(text, lower, isLetter, i);
          return true;
        }
        if run == 2 && !DoubleAllowed(c) {
          assert DegenerateAt(text, lower, isLetter, i);
          return true;
        }
      } else {
        prev, run := c, 1;
      }
      i := i + 1;
    }
    return false;
  }

  /** Every letter of the scan is one that may be doubled, and none is tripled, exactly when nothing is found. */
  lemma CleanText(text: string, lower: char -> char, isLetter: char -> bool)
    ensures !Degenerate(text, lower, isLetter) <==>
              forall i :: 0 < i < |text| && Repeats(text, lower, isLetter, i) ==>
                RunAt(text, lower, isLetter, i) == 2 && DoubleAllowed(lower(text[i]))
  {
    if !Degenerate(text, lower, isLetter) {
      forall i | 0 < i < |text| && Repeats(text, lower, isLetter, i)
        ensures RunAt(text, lower, isLetter, i) == 2 && DoubleAllowed(lower(text[i]))
      {
        assert !DegenerateAt(text, lower, isLetter, i);
      }
    } else {
      var i :| 0 < i < |text| && DegenerateAt(text, lower, isLetter, i);
      assert i > 1 && Repeats(text, lower, isLetter, i - 1) ==> RunAt(text, lower, isLetter, i - 2) >= 1;
    }
  }
}
