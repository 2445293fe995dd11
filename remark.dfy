/** The `Remark` entity: an essence, a set of tag titles and two timestamps. */
module Remarks {
  import opened Outcomes
  import opened Uuids
  import opened AppErrors
  import opened Timestamps
  import opened RemarkEssences
  import opened TagTitles
  import opened TitleSets

  /** The constructor's input; the tags may repeat and come in any order. */
  datatype RemarkAttributes = RemarkAttributes(
    id: Uuid,
    essence: RemarkEssence,
    tags: seq<TagTitle>,
    createdAt: Timestamp,
    updatedAt: Timestamp)

  class Remark {
    const id: Uuid
    var essence: RemarkEssence
    /** The `BTreeSet<TagTitle>`: ascending and free of duplicates. */
    var tags: seq<TagTitle>
    const createdAt: Timestamp
    var updatedAt: Timestamp

    ghost predicate Valid()
      reads this
    {
      StrictlySorted(tags)
    }

    /** The remark's current field values, tags in set order. */
    function View(): RemarkAttributes
      reads this
    {
      RemarkAttributes(id, essence, tags, createdAt, updatedAt)
    }

    /** `Remark::new`: every attribute is kept; the tag list becomes a set. */
    constructor (attributes: RemarkAttributes)
      ensures Valid()
      ensures View() == attributes.(tags := FromIter(attributes.tags))
      ensures forall t :: t in tags <==> t in attributes.tags
    {
      id := attributes.id;
      essence := attributes.essence;
      tags := FromIter(attributes.tags);
      createdAt := attributes.createdAt;
      updatedAt := attributes.updatedAt;
    }

    /** Replaces the essence and nothing else. */
    method SetEssence(newEssence: RemarkEssence)
      requires Valid()
      modifies this
      ensures Valid()
      ensures View() == old(View()).(essence := newEssence)
    {
      essence := newEssence;
    }

    /** Replaces the whole tag set by the set of `newTags`; earlier tags are not kept. */
    method SetTags(newTags: seq<TagTitle>)
      requires Valid()
      modifies this
      ensures Valid()
      ensures View() == old(View()).(tags := FromIter(newTags))
      ensures forall t :: t in tags <==> t in newTags
    {
      tags := FromIter(newTags);
    }

    /** Stores `requested` unless it is earlier than the current `updated_at`; a refusal changes nothing. */
    method SetUpdatedAt(requested: Timestamp) returns (r: Result<(), ApplicationError>)
      requires Valid()
      modifies this
      ensures Valid()
      ensures r == CheckUpdatedAt(old(updatedAt), requested)
      ensures View() == old(View()).(updatedAt := NextUpdatedAt(old(updatedAt), requested))
      ensures old(updatedAt) <= updatedAt
    {
      if updatedAt > requested {
        return Err(InvalidArgumentError(UPDATED_AT_BACKWARDS));
      }
      updatedAt := requested;
      r := Ok(());
    }

    /** `Remark::tags`: the titles in ascending order, each once. */
    function Tags(): (r: seq<TagTitle>)
      requires Valid()
      reads this
      ensures StrictlySorted(r)
      ensures forall t :: t in r <==> t in tags
    {
      tags
    }
  }
}
