/** `TagTitle`: a tag label, validated once and normalised by trimming and lower-casing. */
module TagTitles {
  import opened Outcomes
  import opened Text
  import opened AppErrors

  datatype TagTitle = TagTitle(value: string)

  const BLANK_TITLE: string := "tag title can't be blank"

  /**
   * `TagTitle::new`. The blank check looks at the raw input, before trimming:
   * only the empty string is rejected.
   */
  function NewTagTitle(value: string): (r: Result<TagTitle, ApplicationError>)
    ensures r.Err? <==> value == []
    ensures r.Err? ==> r.error == InvalidArgumentError(BLANK_TITLE)
  {
    if value == [] then Err(InvalidArgumentError(BLANK_TITLE))
    else Ok(TagTitle(Lower(Trim(value))))
  }

  /** A built title is already trimmed and lower-case. */
  lemma NewTagTitleCanonical(value: string)
    requires value != []
    ensures Trimmed(NewTagTitle(value).value.value) && IsLower(NewTagTitle(value).value.value)
  {
    TrimIsTrimmed(value);
    LowerKeepsTrimmed(Trim(value));
    LowerIsLower(Trim(value));
  }

  /** The quirk of the raw blank check: whitespace-only input is accepted and yields an empty title. */
  lemma WhitespaceTitleAccepted(value: string)
    requires value != [] && AllWhitespace(value)
    ensures NewTagTitle(value) == Ok(TagTitle(""))
  {
    TrimEmptyIff(value);
  }

  /** A non-empty input yields its trimmed, lower-cased text. */
  lemma TitleIsTrimmedLowercase(value: string)
    requires value != []
    ensures NewTagTitle(value).Ok?
    ensures NewTagTitle(value).value.value == Trim(Lower(value))
  {
    LowerTrimCommute(value);
  }

  /**
   * Inputs that differ only in surrounding whitespace and in letter case
   * produce the same title.
   */
  lemma SameTitleUpToWhitespaceAndCase(w1: string, a: string, w2: string, b: string)
    requires AllWhitespace(w1) && AllWhitespace(w2)
    requires Lower(a) == Lower(b)
    requires w1 + a + w2 != [] && b != []
    ensures NewTagTitle(w1 + a + w2) == NewTagTitle(b)
  {
    SurroundingWhitespace(w1, a, w2);
    LowerTrimCommute(a);
    LowerTrimCommute(b);
  }

  /** Normalisation is idempotent: feeding a title's text back in returns the same title. */
  lemma NewTagTitleIdempotent(value: string)
    requires value != [] && NewTagTitle(value).value.value != []
    ensures NewTagTitle(NewTagTitle(value).value.value) == NewTagTitle(value)
  {
    var t := NewTagTitle(value).value.value;
    NewTagTitleCanonical(value);
    TrimOfTrimmed(t);
    LowerOfLower(t);
  }

  /** A title as `NewTagTitle` leaves it, and non-empty. */
  predicate Normalized(t: TagTitle) {
    t.value != [] && Trimmed(t.value) && IsLower(t.value)
  }

  /** Feeding a normalised title's text back in gives the same title. */
  lemma NormalizedRoundTrip(t: TagTitle)
    requires Normalized(t)
    ensures NewTagTitle(t.value) == Ok(t)
  {
    TrimOfTrimmed(t.value);
    LowerOfLower(t.value);
  }

  /** The derived `Ord` of the newtype: the order of the inner strings. */
  predicate TitleLess(a: TagTitle, b: TagTitle) {
    Less(a.value, b.value)
  }

  /** Title order is a strict total order, and equal titles are exactly equal strings. */
  lemma TitleOrder(a: TagTitle, b: TagTitle, c: TagTitle)
    ensures a == b <==> a.value == b.value
    ensures !TitleLess(a, a)
    ensures TitleLess(a, b) && TitleLess(b, c) ==> TitleLess(a, c)
    ensures a == b || TitleLess(a, b) || TitleLess(b, a)
  {
    LessIrreflexive(a.value);
    LessTotal(a.value, b.value);
    if TitleLess(a, b) && TitleLess(b, c) {
      LessTransitive(a.value, b.value, c.value);
    }
  }
}
