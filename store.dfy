/**
 * An in-memory stand-in for the repository behind the operations traits
 * (`GetRemark`, `InsertRemark`, `UpdateRemark`, `DeleteRemark`, `GetTag`,
 * `UpdateTag`): remarks and tags kept by id.
 */
module Stores {
  import opened Outcomes
  import opened Uuids
  import opened AppErrors
  import opened Timestamps
  import opened RemarkEssences
  import opened TagTitles
  import opened TitleSets
  import opened Remarks
  import opened Tags

  const REMARK_RESOURCE: string := "remark"
  const TAG_RESOURCE: string := "tag"

  /** A remark ready to be inserted: validated essence and titles, no id yet. */
  datatype NewRemark = NewRemark(essence: RemarkEssence, tags: seq<TagTitle>)

  class Store {
    var remarks: map<Uuid, RemarkAttributes>
    var tags: map<Uuid, TagAttributes>

    /** Every stored row sits under its own id, and remark tags are kept as sets. */
    ghost predicate Valid()
      reads this
    {
      (forall id :: id in remarks ==> remarks[id].id == id && StrictlySorted(remarks[id].tags))
      && (forall id :: id in tags ==> tags[id].id == id)
    }

    constructor ()
      ensures Valid() && remarks == map[] && tags == map[]
    {
      remarks := map[];
      tags := map[];
    }

    /** `GetRemark`: a fresh `Remark` built from the stored row, or not-found. */
    method GetRemark(id: Uuid) returns (r: Result<Remark, ApplicationError>)
      requires Valid()
      ensures r.Ok? <==> id in remarks
      ensures r.Err? ==> r.error == NotFound(REMARK_RESOURCE, id)
      ensures r.Ok? ==> fresh(r.value) && r.value.Valid() && r.value.View() == remarks[id]
    {
      if id !in remarks {
        return Err(NotFound(REMARK_RESOURCE, id));
      }
      FromIterOfSorted(remarks[id].tags);
      var remark := new Remark(remarks[id]);
      r := Ok(remark);
    }

    /** `InsertRemark`: stores the new remark under a fresh id, stamped with `now`. */
    method InsertRemark(newRemark: NewRemark, id: Uuid, now: Timestamp) returns (r: Result<Remark, ApplicationError>)
      requires Valid() && id !in remarks
      modifies this
      ensures Valid()
      ensures r.Ok? && fresh(r.value) && r.value.Valid()
      ensures r.value.View() == RemarkAttributes(id, newRemark.essence, FromIter(newRemark.tags), now, now)
      ensures remarks == old(remarks)[id := r.value.View()] && tags == old(tags)
    {
      var remark := new Remark(RemarkAttributes(id, newRemark.essence, newRemark.tags, now, now));
      remarks := remarks[id := remark.View()];
      r := Ok(remark);
    }

    /** `UpdateRemark`: overwrites the stored row with the remark's fields. */
    method UpdateRemark(remark: Remark) returns (r: Result<(), ApplicationError>)
      requires Valid() && remark.Valid()
      modifies this
      ensures Valid()
      ensures r.Ok? <==> remark.id in old(remarks)
      ensures r.Err? ==> r.error == NotFound(REMARK_RESOURCE, remark.id) && remarks == old(remarks)
      ensures r.Ok? ==> remarks == old(remarks)[remark.id := remark.View()]
      ensures tags == old(tags)
    {
      if remark.id !in remarks {
        return Err(NotFound(REMARK_RESOURCE, remark.id));
      }
      remarks := remarks[remark.id := remark.View()];
      r := Ok(());
    }

    /** `DeleteRemark`: removes the row, or reports not-found. */
    method DeleteRemark(id: Uuid) returns (r: Result<(), ApplicationError>)
      requires Valid()
      modifies this
      ensures Valid()
      ensures r.Ok? <==> id in old(remarks)
      ensures r.Err? ==> r.error == NotFound(REMARK_RESOURCE, id)
      ensures remarks == old(remarks) - {id} && tags == old(tags)
    {
      if id !in remarks {
        return Err(NotFound(REMARK_RESOURCE, id));
      }
      remarks := remarks - {id};
      r := Ok(());
    }

    /** `GetTag`: a fresh `Tag` built from the stored row, or not-found. */
    method GetTag(id: Uuid) returns (r: Result<Tag, ApplicationError>)
      requires Valid()
      ensures r.Ok? <==> id in tags
      ensures r.Err? ==> r.error == NotFound(TAG_RESOURCE, id)
      ensures r.Ok? ==> fresh(r.value) && r.value.View() == tags[id]
    {
      if id !in tags {
        return Err(NotFound(TAG_RESOURCE, id));
      }
      var tag := new Tag(tags[id]);
      r := Ok(tag);
    }

    /**
     * `UpdateTag`: overwrites the stored row with the tag's title; the row's
     * `updated_at` takes the database default `now`, which is written back
     * into the caller's tag. A missing row changes neither store nor tag.
     */
    method UpdateTag(tag: Tag, now: Timestamp) returns (r: Result<(), ApplicationError>)
      requires Valid()
      modifies this, tag
      ensures Valid()
      ensures r.Ok? <==> tag.id in old(tags)
      ensures r.Err? ==> r.error == NotFound(TAG_RESOURCE, tag.id) && tags == old(tags) && tag.View() == old(tag.View())
      ensures r.Ok? ==> tag.View() == old(tag.View()).(updatedAt := now)
      ensures r.Ok? ==> tags == old(tags)[tag.id := tag.View()]
      ensures remarks == old(remarks)
    {
      if tag.id !in tags {
        return Err(NotFound(TAG_RESOURCE, tag.id));
      }
      tag.updatedAt := now;
      tags := tags[tag.id := tag.View()];
      r := Ok(());
    }
  }
}
