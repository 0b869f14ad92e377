/** The answer to the "clear the existing collection? (y/N)" question. */
module Prompt {
  import opened JsText

  /** `c` is the lower-case letter `l` in either case. */
  predicate IsLetterAnyCase(c: char, l: char)
    requires 'a' <= l <= 'z'
  {
    c == l || c as int == l as int - 32
  }

  /**
   * The collection is cleared only when the lower-cased answer is "y" or
   * "yes". So the affirmative answers are exactly the spellings of "y" and
   * "yes" in any mix of cases ("Y", "Yes", "yES", ...); anything else,
   * including an empty answer or one with surrounding spaces, keeps the
   * collection.
   */
  function ShouldClear(answer: string): (r: bool)
    ensures r <==>
      || (|answer| == 1 && IsLetterAnyCase(answer[0], 'y'))
      || (|answer| == 3 && IsLetterAnyCase(answer[0], 'y')
          && IsLetterAnyCase(answer[1], 'e') && IsLetterAnyCase(answer[2], 's'))
  {
    var a := ToLower(answer);
    assert |a| == 1 ==> (a == "y" <==> a[0] == 'y');
    assert |a| == 3 ==> (a == "yes" <==> a[0] == 'y' && a[1] == 'e' && a[2] == 's');
    a == "y" || a == "yes"
  }
}
