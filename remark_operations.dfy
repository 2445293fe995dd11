/** The remark use cases: create, update and delete over the store. */
module RemarkOperations {
  import opened Outcomes
  import opened Text
  import opened Uuids
  import opened AppErrors
  import opened Timestamps
  import opened RemarkEssences
  import opened TagTitles
  import opened TitleSets
  import opened Remarks
  import opened Stores

  const NO_CHANGES: string := "no remark changes provided"

  datatype NewRemarkAttributes = NewRemarkAttributes(essence: string, tags: seq<string>)

  /** What a caller asks to change; a field left `None` is kept. */
  datatype RemarkChanges = RemarkChanges(essence: Option<string>, tags: Option<seq<string>>)

  /**
   * Titles built one by one and collected into a `Result`: the first invalid
   * one stops the collection.
   */
  function ParseTitles(values: seq<string>): (r: Result<seq<TagTitle>, ApplicationError>)
    ensures r.Err? ==> r.error == InvalidArgumentError(BLANK_TITLE)
    ensures r.Ok? ==> |r.value| == |values|
  {
    CollectAllErrorOrigin(values, NewTagTitle);
    CollectAll(values, NewTagTitle)
  }

  /** The collection succeeds exactly when no input is empty. */
  lemma ParseTitlesOkIff(values: seq<string>)
    ensures ParseTitles(values).Ok? <==> forall i :: 0 <= i < |values| ==> values[i] != []
  {
    CollectAllOkIff(values, NewTagTitle);
  }

  /** The title collected at each position is the one `NewTagTitle` builds from that input. */
  lemma ParseTitlesValues(values: seq<string>, i: nat)
    requires ParseTitles(values).Ok? && i < |values|
    ensures NewTagTitle(values[i]) == Ok(ParseTitles(values).value[i])
  {
    CollectAllValues(values, NewTagTitle, i);
  }

  /** Each collected title is its input trimmed and lower-cased, in input order. */
  lemma ParseTitlesNormalizes(values: seq<string>, i: nat)
    requires ParseTitles(values).Ok? && i < |values|
    ensures ParseTitles(values).value[i] == TagTitle(Lower(Trim(values[i])))
  {
    ParseTitlesValues(values, i);
  }

  /** `NewRemark::new`: the essence is checked first, then every tag. */
  function NewRemarkFrom(attributes: NewRemarkAttributes): (r: Result<NewRemark, ApplicationError>)
    ensures r.Ok? <==> attributes.essence != [] && ParseTitles(attributes.tags).Ok?
    ensures attributes.essence == [] ==> r == Err(InvalidArgumentError(BLANK_ESSENCE))
    ensures r.Err? && attributes.essence != [] ==> r == Err(InvalidArgumentError(BLANK_TITLE))
    ensures r.Ok? ==> Ok(r.value.essence) == NewRemarkEssence(attributes.essence)
    ensures r.Ok? ==> Ok(r.value.tags) == ParseTitles(attributes.tags)
  {
    match NewRemarkEssence(attributes.essence)
    case Err(e) => Err(e)
    case Ok(essence) =>
      match ParseTitles(attributes.tags)
      case Err(e) => Err(e)
      case Ok(tags) => Ok(NewRemark(essence, tags))
  }

  /**
   * The remark `update_remark` hands to the store: the supplied essence and
   * tags validated and applied to the current remark, or the first error.
   */
  function ApplyChanges(current: RemarkAttributes, changes: RemarkChanges): (r: Result<RemarkAttributes, ApplicationError>)
    ensures r.Ok? <==> ((changes.essence.Some? ==> changes.essence.value != [])
                        && (changes.tags.Some? ==> ParseTitles(changes.tags.value).Ok?))
    ensures r.Ok? ==> (r.value.id == current.id
                       && r.value.createdAt == current.createdAt
                       && r.value.updatedAt == current.updatedAt)
  {
    var essence :=
      if changes.essence.None? then Ok(current.essence)
      else match NewRemarkEssence(changes.essence.value)
        case Err(e) => Err(e)
        case Ok(e) => Ok(e);
    var tags :=
      if changes.tags.None? then Ok(current.tags)
      else match ParseTitles(changes.tags.value)
        case Err(e) => Err(e)
        case Ok(ts) => Ok(FromIter(ts));
    if essence.Err? then Err(essence.error)
    else if tags.Err? then Err(tags.error)
    else Ok(current.(essence := essence.value, tags := tags.value))
  }

  /** A field that is not supplied keeps its value; a supplied one is replaced by its validated form. */
  lemma ApplyChangesFields(current: RemarkAttributes, changes: RemarkChanges)
    requires ApplyChanges(current, changes).Ok?
    ensures changes.essence.None? ==> ApplyChanges(current, changes).value.essence == current.essence
    ensures changes.tags.None? ==> ApplyChanges(current, changes).value.tags == current.tags
    ensures changes.essence.Some? ==>
      Ok(ApplyChanges(current, changes).value.essence) == NewRemarkEssence(changes.essence.value)
    ensures changes.tags.Some? ==>
      ApplyChanges(current, changes).value.tags == FromIter(ParseTitles(changes.tags.value).value)
  {
  }

  /** A blank essence is reported even when the tags are invalid too: the essence is checked first. */
  lemma BlankEssenceFirst(current: RemarkAttributes, changes: RemarkChanges)
    requires changes.essence == Some([])
    ensures ApplyChanges(current, changes) == Err(InvalidArgumentError(BLANK_ESSENCE))
  {
  }

  /** New tags replace the old ones as a set: the result holds exactly the supplied titles. */
  lemma ApplyChangesTagSet(current: RemarkAttributes, changes: RemarkChanges, t: TagTitle)
    requires changes.tags.Some? && ApplyChanges(current, changes).Ok?
    ensures t in ApplyChanges(current, changes).value.tags <==> t in ParseTitles(changes.tags.value).value
  {
  }

  /** `create_remark`: validation first; nothing is inserted unless every value is valid. */
  method CreateRemark(attributes: NewRemarkAttributes, store: Store, id: Uuid, now: Timestamp)
    returns (r: Result<Remark, ApplicationError>)
    requires store.Valid() && id !in store.remarks
    modifies store
    ensures store.Valid()
    ensures r.Err? <==> NewRemarkFrom(attributes).Err?
    ensures r.Err? ==> r.error == NewRemarkFrom(attributes).error && unchanged(store)
    ensures r.Ok? ==> fresh(r.value) && r.value.id == id && r.value.Valid()
    ensures r.Ok? ==> r.value.View() == RemarkAttributes(id, NewRemarkFrom(attributes).value.essence,
                                                         FromIter(NewRemarkFrom(attributes).value.tags), now, now)
    ensures r.Ok? ==> store.remarks == old(store.remarks)[id := r.value.View()] && store.tags == old(store.tags)
  {
    var newRemark := NewRemarkFrom(attributes);
    if newRemark.Err? {
      return Err(newRemark.error);
    }
    r := store.InsertRemark(newRemark.value, id, now);
  }

  /**
   * `update_remark`: an empty change set is refused before the store is
   * touched; otherwise the remark is fetched, changed and written back, and
   * any failure leaves the store as it was.
   */
  method UpdateRemark(id: Uuid, changes: RemarkChanges, store: Store) returns (r: Result<Remark, ApplicationError>)
    requires store.Valid()
    modifies store
    ensures store.Valid()
    ensures changes.essence.None? && changes.tags.None? ==>
      r == Err(InvalidArgumentError(NO_CHANGES)) && unchanged(store)
    ensures (changes.essence.Some? || changes.tags.Some?) && id !in old(store.remarks) ==>
      r == Err(NotFound(REMARK_RESOURCE, id)) && unchanged(store)
    ensures (changes.essence.Some? || changes.tags.Some?) && id in old(store.remarks) ==>
      match ApplyChanges(old(store.remarks)[id], changes)
      case Err(e) => r == Err(e) && unchanged(store)
      case Ok(v) => r.Ok? && fresh(r.value) && r.value.View() == v
                    && store.remarks == old(store.remarks)[id := v] && store.tags == old(store.tags)
  {
    if changes.essence.None? && changes.tags.None? {
      return Err(InvalidArgumentError(NO_CHANGES));
    }
    var fetched := store.GetRemark(id);
    if fetched.Err? {
      return Err(fetched.error);
    }
    var remark := fetched.value;
    ghost var expected := ApplyChanges(remark.View(), changes);
    if changes.essence.Some? {
      var essence := NewRemarkEssence(changes.essence.value);
      if essence.Err? {
        return Err(essence.error);
      }
      remark.SetEssence(essence.value);
    }
    if changes.tags.Some? {
      var titles := ParseTitles(changes.tags.value);
      if titles.Err? {
        return Err(titles.error);
      }
      remark.SetTags(titles.value);
    }
    assert expected == Ok(remark.View());
    var updated := store.UpdateRemark(remark);
    if updated.Err? {
      // The row was fetched above, so writing it back cannot report it missing.
      assert false;
    }
    r := Ok(remark);
  }

  /** `delete_remark`: fetch, then delete, and answer with the remark as it was before deletion. */
  method DeleteRemark(id: Uuid, store: Store) returns (r: Result<Remark, ApplicationError>)
    requires store.Valid()
    modifies store
    ensures store.Valid()
    ensures r.Ok? <==> id in old(store.remarks)
    ensures r.Err? ==> r.error == NotFound(REMARK_RESOURCE, id) && unchanged(store)
    ensures r.Ok? ==> fresh(r.value) && r.value.View() == old(store.remarks)[id]
    ensures r.Ok? ==> store.remarks == old(store.remarks) - {id} && store.tags == old(store.tags)
  {
    var fetched := store.GetRemark(id);
    if fetched.Err? {
      return Err(fetched.error);
    }
    var deleted := store.DeleteRemark(id);
    if deleted.Err? {
      // The row was fetched above, so deleting it cannot report it missing.
      assert false;
    }
    r := Ok(fetched.value);
  }
}
