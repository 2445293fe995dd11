/** `PageToken` and `Page`: an opaque continuation string and a page of items. */
module Pages {
  import opened Outcomes

  datatype PageToken = PageToken(value: string)

  datatype Page<T> = Page(items: seq<T>, nextPageToken: Option<PageToken>)

  const TOKEN_PREFIX: string := "PageToken { "
  const TOKEN_SUFFIX: string := " }"

  /** `From<String>`: the string is wrapped unchanged. */
  function FromString(s: string): (t: PageToken)
    ensures t.value == s
  {
    PageToken(s)
  }

  /** `Deref`: the wrapped string. */
  function Deref(t: PageToken): (s: string)
    ensures FromString(s) == t
  {
    t.value
  }

  /** `Display`: the token text between a fixed prefix and suffix, otherwise verbatim. */
  function Display(t: PageToken): (r: string)
    ensures |r| == |t.value| + 14
    ensures r[..12] == TOKEN_PREFIX && r[|r| - 2..] == TOKEN_SUFFIX
    ensures r[12..|r| - 2] == t.value
  {
    TOKEN_PREFIX + t.value + TOKEN_SUFFIX
  }

  /** A token survives `From` followed by `Deref`. */
  lemma DerefFromString(s: string)
    ensures Deref(FromString(s)) == s
  {
  }

  /** Different tokens are displayed differently. */
  lemma DisplayInjective(a: PageToken, b: PageToken)
    requires Display(a) == Display(b)
    ensures a == b
  {
    assert a.value == Display(a)[12..|Display(a)| - 2];
  }
}
