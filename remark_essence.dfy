/** `RemarkEssence`: the text of a remark, validated and trimmed. */
module RemarkEssences {
  import opened Outcomes
  import opened Text
  import opened AppErrors

  datatype RemarkEssence = RemarkEssence(value: string)

  const BLANK_ESSENCE: string := "remark essence can't be blank"

  /** `RemarkEssence::new`: only the empty string is rejected; the rest is trimmed. */
  function NewRemarkEssence(essence: string): (r: Result<RemarkEssence, ApplicationError>)
    ensures r.Err? <==> essence == []
    ensures r.Err? ==> r.error == InvalidArgumentError(BLANK_ESSENCE)
    ensures r.Ok? ==> Trimmed(r.value.value)
  {
    if essence == [] then Err(InvalidArgumentError(BLANK_ESSENCE))
    else
      TrimIsTrimmed(essence);
      Ok(RemarkEssence(Trim(essence)))
  }

  /** The blank check runs before trimming: whitespace-only input yields an empty essence. */
  lemma WhitespaceEssenceAccepted(essence: string)
    requires essence != [] && AllWhitespace(essence)
    ensures NewRemarkEssence(essence) == Ok(RemarkEssence(""))
  {
    TrimEmptyIff(essence);
  }

  /**
   * Only leading and trailing whitespace is removed: the essence is a contiguous
   * slice of the input, case and interior characters untouched.
   */
  lemma EssenceIsInnerSlice(essence: string)
    requires essence != []
    ensures exists i, j :: 0 <= i <= j <= |essence|
              && NewRemarkEssence(essence).value.value == essence[i..j]
              && AllWhitespace(essence[..i]) && AllWhitespace(essence[j..])
  {
    TrimIsSlice(essence);
  }

  /** Whitespace around the input does not matter. */
  lemma EssenceIgnoresSurroundingWhitespace(w1: string, s: string, w2: string)
    requires AllWhitespace(w1) && AllWhitespace(w2) && s != []
    ensures NewRemarkEssence(w1 + s + w2) == NewRemarkEssence(s)
  {
    SurroundingWhitespace(w1, s, w2);
  }

  /** An already trimmed, non-empty essence is returned unchanged. */
  lemma NewRemarkEssenceOfTrimmed(essence: string)
    requires essence != [] && Trimmed(essence)
    ensures NewRemarkEssence(essence) == Ok(RemarkEssence(essence))
  {
    TrimOfTrimmed(essence);
  }
}
