/**
 * The change requests the command-line client builds for each remarks
 * command, and what the server makes of them.
 */
module CliRemarks {
  import opened Outcomes
  import opened Text
  import opened TagTitles
  import opened TitleSets
  import opened Remarks
  import opened RemarkOperations

  /** The client's `RemarkUpdates`: the fields the command asks the server to replace. */
  datatype RemarkUpdates = RemarkUpdates(essence: Option<string>, tags: Option<seq<string>>)

  /** The client's `NewRemark`. */
  datatype NewRemarkRequest = NewRemarkRequest(essence: string, tags: seq<string>)

  /** The remark's tags written out as text, in the remark's order. */
  function TagTexts(tags: seq<TagTitle>): (r: seq<string>)
    ensures |r| == |tags|
    ensures forall i :: 0 <= i < |tags| ==> r[i] == tags[i].value
  {
    seq(|tags|, i requires 0 <= i < |tags| => tags[i].value)
  }

  /** The request as the server's use case receives it. */
  function AsChanges(u: RemarkUpdates): RemarkChanges {
    RemarkChanges(u.essence, u.tags)
  }

  /** `AddRemarkTags`: the current tags followed by the new ones, and no essence. */
  function AddRemarkTags(current: seq<TagTitle>, added: seq<string>): (u: RemarkUpdates)
    ensures u.essence.None? && u.tags.Some? && |u.tags.value| == |current| + |added|
    ensures u.tags.value[..|current|] == TagTexts(current) && u.tags.value[|current|..] == added
  {
    RemarkUpdates(None, Some(TagTexts(current) + added))
  }

  /** `ClearRemarkTags`: an empty tag list and no essence. */
  function ClearRemarkTags(): (u: RemarkUpdates)
    ensures u.essence.None? && u.tags == Some([])
  {
    RemarkUpdates(None, Some([]))
  }

  /** `EditRemark`: only the edited essence. */
  function EditRemark(essence: string): (u: RemarkUpdates)
    ensures u.essence == Some(essence) && u.tags.None?
  {
    RemarkUpdates(Some(essence), None)
  }

  /** `NewRemark`: the editor's text, and no tags. */
  function NewRemark(essence: string): (n: NewRemarkRequest)
    ensures n.essence == essence && n.tags == []
  {
    NewRemarkRequest(essence, [])
  }

  /** `ShowLastRemark`: the first item of the first page, if there is one. */
  function ShowLastRemark<T>(items: seq<T>): (r: Option<T>)
    ensures r.Some? <==> items != []
    ensures r.Some? ==> r.value == items[0]
  {
    if items == [] then None else Some(items[0])
  }

  /** The texts of `s` not equal to any of `remove`, in their original order. */
  function KeepAbsent(s: seq<string>, remove: seq<string>): (r: seq<string>)
    ensures |r| <= |s|
  {
    if s == [] then []
    else KeepAbsent(s[..|s| - 1], remove) + (if s[|s| - 1] in remove then [] else [s[|s| - 1]])
  }

  /** A text survives exactly when the list holds it and it is not among those removed. */
  lemma {:induction false} KeepAbsentMembers(s: seq<string>, remove: seq<string>, x: string)
    ensures x in KeepAbsent(s, remove) <==> x in s && x !in remove
  {
    if s != [] {
      KeepAbsentMembers(s[..|s| - 1], remove, x);
      assert s == s[..|s| - 1] + [s[|s| - 1]];
    }
  }

  /** Filtering a list piecewise filters the whole: the surviving texts stay in order. */
  lemma {:induction false} KeepAbsentAppend(a: seq<string>, b: seq<string>, remove: seq<string>)
    ensures KeepAbsent(a + b, remove) == KeepAbsent(a, remove) + KeepAbsent(b, remove)
    decreases |b|
  {
    if b == [] {
      assert a + b == a;
    } else {
      var init := b[..|b| - 1];
      assert (a + b)[..|a + b| - 1] == a + init;
      KeepAbsentAppend(a, init, remove);
    }
  }

  /** Removing texts the list does not hold leaves it unchanged. */
  lemma {:induction false} KeepAbsentOfDisjoint(s: seq<string>, remove: seq<string>)
    requires forall x :: x in s ==> x !in remove
    ensures KeepAbsent(s, remove) == s
  {
    if s != [] {
      KeepAbsentOfDisjoint(s[..|s| - 1], remove);
      assert s == s[..|s| - 1] + [s[|s| - 1]];
    }
  }

  /** `Vec::retain`: compacts the kept texts to the front of `a`, in order, and returns how many. */
  method Retain(a: array<string>, remove: seq<string>) returns (n: nat)
    modifies a
    ensures n <= a.Length
    ensures a[..n] == KeepAbsent(old(a[..]), remove)
  {
    ghost var s := a[..];
    n := 0;
    var i := 0;
    while i < a.Length
      invariant 0 <= n <= i <= a.Length
      invariant a[..n] == KeepAbsent(s[..i], remove)
      invariant forall k :: i <= k < a.Length ==> a[k] == s[k]
    {
      assert s[..i + 1] == s[..i] + [s[i]];
      if a[i] !in remove {
        a[n] := a[i];
        n := n + 1;
      }
      i := i + 1;
    }
    assert s[..a.Length] == s;
  }

  /** `DeleteRemarkTags`: the current tags minus every one equal to a requested text, and no essence. */
  method DeleteRemarkTags(current: seq<TagTitle>, remove: seq<string>) returns (u: RemarkUpdates)
    ensures u == RemarkUpdates(None, Some(KeepAbsent(TagTexts(current), remove)))
  {
    var texts := TagTexts(current);
    var a := new string[|texts|](i requires 0 <= i < |texts| => texts[i]);
    assert a[..] == texts;
    var n := Retain(a, remove);
    u := RemarkUpdates(None, Some(a[..n]));
  }

  /** Texts of normalised titles parse back to the same titles. */
  lemma ParseTagTexts(tags: seq<TagTitle>)
    requires forall t :: t in tags ==> Normalized(t)
    ensures ParseTitles(TagTexts(tags)) == Ok(tags)
  {
    var texts := TagTexts(tags);
    forall i | 0 <= i < |texts| ensures texts[i] != [] {
      assert tags[i] in tags;
    }
    ParseTitlesOkIff(texts);
    var r := ParseTitles(texts).value;
    forall i | 0 <= i < |tags| ensures r[i] == tags[i] {
      assert tags[i] in tags;
      NormalizedRoundTrip(tags[i]);
      ParseTitlesValues(texts, i);
    }
    assert r == tags;
  }

  /**
   * Adding tags from the client: on a remark whose titles are normalised and
   * non-empty, the stored set becomes the old titles together with the new ones.
   */
  lemma AddRemarkTagsUnion(current: RemarkAttributes, added: seq<string>, t: TagTitle)
    requires forall x :: x in current.tags ==> Normalized(x)
    requires ParseTitles(added).Ok?
    ensures ApplyChanges(current, AsChanges(AddRemarkTags(current.tags, added))).Ok?
    ensures t in ApplyChanges(current, AsChanges(AddRemarkTags(current.tags, added))).value.tags
            <==> t in current.tags || t in ParseTitles(added).value
  {
    ParseTagTexts(current.tags);
    CollectAllAppend(TagTexts(current.tags), added, NewTagTitle);
  }

  /**
   * The client resends the current titles, so a remark carrying an empty
   * title (which a whitespace-only input produces) refuses every later
   * `AddRemarkTags`.
   */
  lemma EmptyTitleBlocksAddRemarkTags(current: RemarkAttributes, added: seq<string>)
    requires TagTitle("") in current.tags
    ensures ApplyChanges(current, AsChanges(AddRemarkTags(current.tags, added))).Err?
  {
    var i :| 0 <= i < |current.tags| && current.tags[i] == TagTitle("");
    var texts := AddRemarkTags(current.tags, added).tags.value;
    assert texts[i] == [];
    ParseTitlesOkIff(texts);
  }

  /** Clearing tags empties the tag set and keeps the essence. */
  lemma ClearRemarkTagsEmpties(current: RemarkAttributes)
    ensures ApplyChanges(current, AsChanges(ClearRemarkTags())) == Ok(current.(tags := []))
  {
  }

  /**
   * Deleting tags from the client: a title leaves the set exactly when its
   * text equals one of the requested texts. The comparison is exact, so
   * `Foo` does not remove the stored title `foo`.
   */
  lemma DeleteRemarkTagsDifference(current: RemarkAttributes, remove: seq<string>, t: TagTitle)
    requires forall x :: x in current.tags ==> Normalized(x)
    ensures var changes := RemarkChanges(None, Some(KeepAbsent(TagTexts(current.tags), remove)));
            ApplyChanges(current, changes).Ok?
            && (t in ApplyChanges(current, changes).value.tags <==> t in current.tags && t.value !in remove)
  {
    var kept := KeepAbsent(TagTexts(current.tags), remove);
    var keptTitles := seq(|kept|, i requires 0 <= i < |kept| => TagTitle(kept[i]));
    forall x | x in keptTitles ensures Normalized(x) {
      var i :| 0 <= i < |keptTitles| && keptTitles[i] == x;
      KeptTextMember(current.tags, remove, kept[i]);
    }
    assert TagTexts(keptTitles) == kept;
    ParseTagTexts(keptTitles);
    var changes := RemarkChanges(None, Some(kept));
    ApplyChangesFields(current, changes);
    KeptTextMember(current.tags, remove, t.value);
    if t.value in kept {
      var i :| 0 <= i < |kept| && kept[i] == t.value;
      assert keptTitles[i] == t;
    }
  }

  /** A kept text is the text of a current title that was not removed. */
  lemma KeptTextMember(tags: seq<TagTitle>, remove: seq<string>, x: string)
    ensures x in KeepAbsent(TagTexts(tags), remove) <==> TagTitle(x) in tags && x !in remove
  {
    var texts := TagTexts(tags);
    KeepAbsentMembers(texts, remove, x);
    if x in texts {
      var j :| 0 <= j < |texts| && texts[j] == x;
      assert tags[j] == TagTitle(x);
    }
    if TagTitle(x) in tags {
      var j :| 0 <= j < |tags| && tags[j] == TagTitle(x);
      assert texts[j] == x;
    }
  }
}
