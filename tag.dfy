/** The `Tag` entity: a title and two timestamps under a fixed id. */
module Tags {
  import opened Outcomes
  import opened Uuids
  import opened AppErrors
  import opened Timestamps
  import opened TagTitles

  datatype TagAttributes = TagAttributes(id: Uuid, title: TagTitle, createdAt: Timestamp, updatedAt: Timestamp)

  class Tag {
    const id: Uuid
    var title: TagTitle
    const createdAt: Timestamp
    var updatedAt: Timestamp

    /** `Tag::new`: every attribute is kept as given. */
    constructor (attributes: TagAttributes)
      ensures View() == attributes
    {
      id := attributes.id;
      title := attributes.title;
      createdAt := attributes.createdAt;
      updatedAt := attributes.updatedAt;
    }

    /** The tag's current field values. */
    function View(): TagAttributes
      reads this
    {
      TagAttributes(id, title, createdAt, updatedAt)
    }

    /** Replaces the title and nothing else. */
    method SetTitle(newTitle: TagTitle)
      modifies this
      ensures View() == old(View()).(title := newTitle)
    {
      title := newTitle;
    }

    /** Stores `requested` unless it is earlier than the current `updated_at`; a refusal changes nothing. */
    method SetUpdatedAt(requested: Timestamp) returns (r: Result<(), ApplicationError>)
      modifies this
      ensures r == CheckUpdatedAt(old(updatedAt), requested)
      ensures View() == old(View()).(updatedAt := NextUpdatedAt(old(updatedAt), requested))
      ensures old(updatedAt) <= updatedAt
    {
      if updatedAt > requested {
        return Err(InvalidArgumentError(UPDATED_AT_BACKWARDS));
      }
      updatedAt := requested;
      r := Ok(());
    }
  }
}
