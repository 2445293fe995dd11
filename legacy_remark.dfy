/**
 * The earlier `Remark` of the definitions crate: the essence is an unchecked
 * string and the tags a plain list of `Tag` records.
 */
module LegacyRemarks {
  import opened Uuids
  import opened Timestamps

  /** The earlier `Tag` record; its title is an unchecked string. */
  datatype LegacyTag = LegacyTag(id: Uuid, title: string, createdAt: Timestamp, updatedAt: Timestamp)

  datatype LegacyRemarkAttributes = LegacyRemarkAttributes(
    id: Uuid,
    essence: string,
    tags: seq<LegacyTag>,
    createdAt: Timestamp,
    updatedAt: Timestamp)

  class LegacyRemark {
    const id: Uuid
    const essence: string
    var tags: seq<LegacyTag>
    const createdAt: Timestamp
    const updatedAt: Timestamp

    /** `Remark::new`: the essence is wrapped as given, neither checked nor trimmed. */
    constructor (attributes: LegacyRemarkAttributes)
      ensures id == attributes.id && essence == attributes.essence && tags == attributes.tags
      ensures createdAt == attributes.createdAt && updatedAt == attributes.updatedAt
    {
      id := attributes.id;
      essence := attributes.essence;
      tags := attributes.tags;
      createdAt := attributes.createdAt;
      updatedAt := attributes.updatedAt;
    }

    /** `add_tag`: appends at the end, without looking for an equal tag already present. */
    method AddTag(tag: LegacyTag)
      modifies this
      ensures |tags| == |old(tags)| + 1
      ensures tags[..|old(tags)|] == old(tags) && tags[|old(tags)|] == tag
      ensures multiset(tags)[tag] == multiset(old(tags))[tag] + 1
    {
      tags := tags + [tag];
    }

    /** `set_tags`: the list is replaced exactly, order and repeats included. */
    method SetTags(newTags: seq<LegacyTag>)
      modifies this
      ensures tags == newTags
    {
      tags := newTags;
    }

    /** `tags`: the stored list in stored order. */
    function Tags(): (r: seq<LegacyTag>)
      reads this
      ensures |r| == |tags| && forall i :: 0 <= i < |r| ==> r[i] == tags[i]
    {
      tags
    }
  }
}
