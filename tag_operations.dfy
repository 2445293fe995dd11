/** The tag use cases over the store. */
module TagOperations {
  import opened Outcomes
  import opened Uuids
  import opened Timestamps
  import opened AppErrors
  import opened TagTitles
  import opened Tags
  import opened Stores

  /** `get_tag`: the store's answer, passed through. */
  method GetTag(id: Uuid, store: Store) returns (r: Result<Tag, ApplicationError>)
    requires store.Valid()
    ensures r.Ok? <==> id in store.tags
    ensures r.Err? ==> r.error == NotFound(TAG_RESOURCE, id)
    ensures r.Ok? ==> fresh(r.value) && r.value.View() == store.tags[id]
  {
    r := store.GetTag(id);
  }

  /**
   * `update_tag`: fetch, retitle, write back; the returned tag carries the
   * requested title, the stored `created_at` and the write's `updated_at`,
   * and equals the row now stored. A failed fetch writes nothing.
   */
  method UpdateTag(id: Uuid, title: TagTitle, now: Timestamp, store: Store) returns (r: Result<Tag, ApplicationError>)
    requires store.Valid()
    modifies store
    ensures store.Valid()
    ensures r.Ok? <==> id in old(store.tags)
    ensures r.Err? ==> r.error == NotFound(TAG_RESOURCE, id) && unchanged(store)
    ensures r.Ok? ==> fresh(r.value) && r.value.id == id && r.value.title == title
    ensures r.Ok? ==> r.value.createdAt == old(store.tags)[id].createdAt && r.value.updatedAt == now
    ensures r.Ok? ==> store.tags == old(store.tags)[id := r.value.View()] && store.tags[id] == r.value.View()
    ensures store.remarks == old(store.remarks)
  {
    var fetched := store.GetTag(id);
    if fetched.Err? {
      return Err(fetched.error);
    }
    var tag := fetched.value;
    tag.SetTitle(title);
    var updated := store.UpdateTag(tag, now);
    if updated.Err? {
      // The row was fetched above, so writing it back cannot report it missing.
      assert false;
    }
    r := Ok(tag);
  }
}
