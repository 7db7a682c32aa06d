/**
 * The activation code field of the demo screen keeps only the digits the
 * user types, and at most twelve of them, before storing the code.
 */
module ExampleSection {
  import opened KotlinText
  import opened TextTransformer

  const ActivationCodeLength: nat := 12

  /** What the field can hold: up to twelve digits. */
  predicate IsActivationCode(s: string) {
    |s| <= ActivationCodeLength && AllDigits(s)
  }

  /** `it.filter(Char::isDigit).take(12)` */
  function ActivationCodeInput(typed: string): (r: string)
    ensures IsActivationCode(r)
    ensures r <= Filter(typed, IsDigit)
    ensures |r| == if |Filter(typed, IsDigit)| <= ActivationCodeLength
                   then |Filter(typed, IsDigit)| else ActivationCodeLength
    ensures IsActivationCode(typed) ==> r == typed
  {
    var digits := Filter(typed, IsDigit);
    var r := Take(digits, ActivationCodeLength);
    assert forall i :: 0 <= i < |r| ==> r[i] == digits[i];
    r
  }

  /** Filtering a code already filtered changes nothing. */
  lemma ActivationCodeInputIdempotent(typed: string)
    ensures ActivationCodeInput(ActivationCodeInput(typed)) == ActivationCodeInput(typed)
  {
  }

  /**
   * Whatever is typed, the stored code is shown in at most 14 characters,
   * every raw cursor position maps into that text, and removing the
   * dashes gives the stored code back.
   */
  lemma FieldDisplay(typed: string, o: int)
    requires 0 <= o <= |ActivationCodeInput(typed)|
    ensures |TransformActivationCode(ActivationCodeInput(typed))| <= 14
    ensures 0 <= OriginalToTransformed(o) <= |TransformActivationCode(ActivationCodeInput(typed))|
    ensures StripDashes(TransformActivationCode(ActivationCodeInput(typed))) == ActivationCodeInput(typed)
  {
    var code := ActivationCodeInput(typed);
    TransformLength(code);
    CursorInRange(code, o);
    DigitsRoundTrip(code);
  }
}
