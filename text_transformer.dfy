/**
 * `transformActivationCode`: the visual transformation of the activation
 * code field. The raw code is shown in chunks of four characters joined
 * by '-', and two piecewise offset maps move the text cursor between the
 * raw string and the displayed one.
 */
module TextTransformer {
  import opened KotlinText

  const ChunkSize: nat := 4
  const Separator: char := '-'

  predicate IsNotSeparator(c: char) {
    c != Separator
  }

  /**
   * The displayed text with its dashes removed: no dash is left, and a
   * text without dashes is left as it is.
   */
  function StripDashes(s: string): (r: string)
    ensures |r| <= |s| && Separator !in r
    ensures Separator !in s ==> r == s
  {
    assert Separator !in s ==> forall i :: 0 <= i < |s| ==> IsNotSeparator(s[i]);
    Filter(s, IsNotSeparator)
  }

  /**
   * The displayed text, `raw.chunked(4).joinToString("-")`: up to four
   * characters are shown as they are; past four, the first chunk, a dash,
   * then the rest displayed the same way.
   */
  function TransformActivationCode(raw: string): (r: string)
    ensures |raw| <= ChunkSize ==> r == raw
    ensures |raw| > ChunkSize ==>
      |r| > ChunkSize && r[..ChunkSize] == raw[..ChunkSize] && r[ChunkSize] == Separator
  {
    var chunks := Chunked(raw, ChunkSize);
    if |raw| == 0 then
      JoinToString(chunks, Separator)
    else if |raw| <= ChunkSize then
      assert chunks == [raw];
      JoinToString(chunks, Separator)
    else
      var rest := Chunked(raw[ChunkSize..], ChunkSize);
      assert chunks == [raw[..ChunkSize]] + rest;
      assert chunks[1..] == rest;
      JoinToString(chunks, Separator)
  }

  /** Raw cursor offset to display offset (`originalToTransformed`). */
  function OriginalToTransformed(offset: int): (r: int)
    ensures 1 <= offset <= 16 ==> r == offset + (offset - 1) / 4
    ensures offset < 1 || offset > 16 ==> r == offset
  {
    if 1 <= offset <= 4 then offset
    else if 5 <= offset <= 8 then offset + 1
    else if 9 <= offset <= 12 then offset + 2
    else if 13 <= offset <= 16 then offset + 3
    else offset
  }

  /**
   * Display cursor offset to raw offset (`transformedToOriginal`), as
   * written: display offset 10 belongs to no range and is left unchanged.
   */
  function TransformedToOriginal(offset: int): (r: int)
    ensures 1 <= offset <= 19 && offset != 10 ==> r == offset - offset / 5
    ensures offset < 1 || offset > 19 || offset == 10 ==> r == offset
  {
    if 1 <= offset <= 4 then offset
    else if 5 <= offset <= 9 then offset - 1
    else if 11 <= offset <= 14 then offset - 2
    else if 15 <= offset <= 19 then offset - 3
    else offset
  }

  /**
   * The display-to-raw map with the range for the second group starting
   * at 10, right after the second dash, as the other three ranges do.
   */
  function TransformedToOriginalIntended(offset: int): (r: int)
    ensures 0 <= offset <= 19 ==> r == offset - offset / 5
    ensures offset < 0 || offset > 19 ==> r == offset
  {
    if 1 <= offset <= 4 then offset
    else if 5 <= offset <= 9 then offset - 1
    else if 10 <= offset <= 14 then offset - 2
    else if 15 <= offset <= 19 then offset - 3
    else offset
  }

  // ---------------------------------------------------------------------
  // The displayed text
  // ---------------------------------------------------------------------

  /** Past four characters: the first chunk, a dash, then the rest displayed. */
  lemma TransformUnfold(raw: string)
    requires |raw| > ChunkSize
    ensures TransformActivationCode(raw)
         == raw[..ChunkSize] + [Separator] + TransformActivationCode(raw[ChunkSize..])
  {
    var rest := Chunked(raw[ChunkSize..], ChunkSize);
    assert Chunked(raw, ChunkSize) == [raw[..ChunkSize]] + rest;
    assert ([raw[..ChunkSize]] + rest)[1..] == rest;
  }

  /** A non-empty code of n characters is displayed in n + (n - 1) / 4 characters. */
  lemma {:induction false} TransformLength(raw: string)
    ensures |TransformActivationCode(raw)| == if |raw| == 0 then 0 else |raw| + (|raw| - 1) / 4
  {
    if |raw| > ChunkSize {
      TransformUnfold(raw);
      TransformLength(raw[ChunkSize..]);
    }
  }

  /** The k-th raw character is displayed at position k + k / 4. */
  lemma {:induction false} TransformAt(raw: string, k: nat)
    requires k < |raw|
    ensures k + k / 4 < |TransformActivationCode(raw)|
    ensures TransformActivationCode(raw)[k + k / 4] == raw[k]
  {
    TransformLength(raw);
    if |raw| > ChunkSize {
      TransformUnfold(raw);
      if k >= ChunkSize {
        TransformAt(raw[ChunkSize..], k - ChunkSize);
      }
    }
  }

  /** Every fifth displayed position (4, 9, 14, ...) holds the dash. */
  lemma {:induction false} TransformSeparatorAt(raw: string, i: nat)
    requires i < |TransformActivationCode(raw)| && i % 5 == 4
    ensures TransformActivationCode(raw)[i] == Separator
  {
    TransformLength(raw);
    if |raw| > ChunkSize {
      TransformUnfold(raw);
      if i > 4 {
        TransformSeparatorAt(raw[ChunkSize..], i - 5);
      }
    }
  }

  /** Removing the dashes from the displayed text gives back the raw code. */
  lemma {:induction false} StripDashesRoundTrip(raw: string)
    requires Separator !in raw
    ensures StripDashes(TransformActivationCode(raw)) == raw
  {
    if |raw| > ChunkSize {
      var head, tail := raw[..ChunkSize], raw[ChunkSize..];
      assert raw == head + tail;
      assert Separator !in tail;
      TransformUnfold(raw);
      StripDashesRoundTrip(tail);
      FilterAppend(head + [Separator], TransformActivationCode(tail), IsNotSeparator);
      FilterAppend(head, [Separator], IsNotSeparator);
    }
  }

  /** A digits-only code, in particular, comes back unchanged. */
  lemma DigitsRoundTrip(raw: string)
    requires AllDigits(raw)
    ensures StripDashes(TransformActivationCode(raw)) == raw
  {
    assert Separator !in raw by {
      assert forall i :: 0 <= i < |raw| ==> raw[i] != Separator;
    }
    StripDashesRoundTrip(raw);
  }

  /** The default code of the demo application is displayed as 7677-4758-2904. */
  lemma DefaultCodeDisplay()
    ensures TransformActivationCode("767747582904") == "7677-4758-2904"
  {
    TransformUnfold("767747582904");
    assert "767747582904"[4..] == "47582904";
    TransformUnfold("47582904");
    assert "47582904"[4..] == "2904";
  }

  // ---------------------------------------------------------------------
  // The cursor maps
  // ---------------------------------------------------------------------

  /** On 0..16 the raw-to-display map is strictly increasing. */
  lemma OriginalToTransformedIncreasing(a: int, b: int)
    requires 0 <= a < b <= 16
    ensures OriginalToTransformed(a) < OriginalToTransformed(b)
  {
  }

  /**
   * The back map undoes the forward map exactly outside 17..19; there the
   * forward map is the identity and the back map subtracts three.
   */
  lemma LeftInverse(offset: int)
    ensures TransformedToOriginal(OriginalToTransformed(offset)) == offset
        <==> !(17 <= offset <= 19)
  {
  }

  /** The intended back map undoes the forward map at the same offsets. */
  lemma LeftInverseIntended(offset: int)
    ensures TransformedToOriginalIntended(OriginalToTransformed(offset)) == offset
        <==> !(17 <= offset <= 19)
  {
  }

  /** The two back maps disagree only at display offset 10. */
  lemma BackMapsAgree(offset: int)
    ensures TransformedToOriginal(offset) == TransformedToOriginalIntended(offset)
        <==> offset != 10
  {
  }

  /**
   * For codes of up to 16 characters, a cursor after the o-th raw character
   * is shown right after the same character in the displayed text.
   */
  lemma CursorAfterSameCharacter(raw: string, o: int)
    requires |raw| <= 16 && 1 <= o <= |raw|
    ensures 0 <= OriginalToTransformed(o) - 1 < |TransformActivationCode(raw)|
    ensures TransformActivationCode(raw)[OriginalToTransformed(o) - 1] == raw[o - 1]
  {
    TransformAt(raw, o - 1);
  }

  /**
   * For codes of up to 16 characters, every raw cursor position 0..|raw|
   * maps into the displayed text, and the end maps to the end.
   */
  lemma CursorInRange(raw: string, o: int)
    requires |raw| <= 16 && 0 <= o <= |raw|
    ensures 0 <= OriginalToTransformed(o) <= |TransformActivationCode(raw)|
    ensures o == |raw| ==> OriginalToTransformed(o) == |TransformActivationCode(raw)|
  {
    TransformLength(raw);
  }

  /** The first chunk and its dash contribute the chunk's four characters. */
  lemma StripFirstChunk(raw: string, rest: string)
    requires Separator !in raw && |raw| > ChunkSize
    ensures StripDashes(raw[..ChunkSize] + [Separator] + rest) == raw[..ChunkSize] + StripDashes(rest)
  {
    var head := raw[..ChunkSize];
    assert Separator !in head;
    FilterAppend(head + [Separator], rest, IsNotSeparator);
    FilterAppend(head, [Separator], IsNotSeparator);
  }

  /** In the first t displayed characters, t / 5 are dashes. */
  lemma {:induction false} CharactersBefore(raw: string, t: nat)
    requires Separator !in raw && t <= |TransformActivationCode(raw)|
    ensures |StripDashes(TransformActivationCode(raw)[..t])| == t - t / 5
  {
    var shown := TransformActivationCode(raw);
    TransformLength(raw);
    if |raw| <= ChunkSize || t <= ChunkSize {
      if |raw| > ChunkSize {
        TransformUnfold(raw);
      }
      assert shown[..t] == raw[..t];
      assert Separator !in raw[..t];
    } else {
      var tail := raw[ChunkSize..];
      assert Separator !in tail;
      TransformUnfold(raw);
      var rest := TransformActivationCode(tail)[..t - 5];
      assert shown[..t] == raw[..ChunkSize] + [Separator] + rest;
      StripFirstChunk(raw, rest);
      CharactersBefore(tail, t - 5);
    }
  }

  /**
   * With the intended back map, for codes of up to 16 characters, a display
   * cursor maps to the number of raw characters in front of it.
   */
  lemma CursorBackIntended(raw: string, t: int)
    requires Separator !in raw && |raw| <= 16 && 0 <= t <= |TransformActivationCode(raw)|
    ensures TransformedToOriginalIntended(t) == |StripDashes(TransformActivationCode(raw)[..t])|
    ensures 0 <= TransformedToOriginalIntended(t) <= |raw|
  {
    TransformLength(raw);
    CharactersBefore(raw, t);
    StripDashesRoundTrip(raw);
    assert TransformActivationCode(raw)[..|TransformActivationCode(raw)|] == TransformActivationCode(raw);
  }

  /** The back map as written does the same at every display offset but 10. */
  lemma CursorBack(raw: string, t: int)
    requires Separator !in raw && |raw| <= 16 && 0 <= t <= |TransformActivationCode(raw)| && t != 10
    ensures TransformedToOriginal(t) == |StripDashes(TransformActivationCode(raw)[..t])|
  {
    CursorBackIntended(raw, t);
  }

  /**
   * At display offset 10, right after the second dash, eight raw characters
   * lie in front of the cursor, yet the back map as written answers 10.
   */
  lemma CursorBackAtTen(raw: string)
    requires Separator !in raw && 9 <= |raw| <= 16
    ensures 10 < |TransformActivationCode(raw)|
    ensures |StripDashes(TransformActivationCode(raw)[..10])| == 8
    ensures TransformedToOriginal(10) == 10
  {
    TransformLength(raw);
    CharactersBefore(raw, 10);
  }

  /**
   * For a nine-digit code the as-written answer at offset 10 is past the
   * end of the raw code itself.
   */
  lemma CursorBackAtTenOutOfRange()
    ensures |TransformActivationCode("767747582")| == 11
    ensures TransformedToOriginal(10) > |"767747582"|
  {
    TransformLength("767747582");
  }
}
