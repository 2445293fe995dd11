/** The wire crate: error, tag and page messages, and their conversions. */
module Wire {
  import opened Outcomes
  import opened Uuids
  import opened Timestamps
  import opened AppErrors
  import opened LegacyRemarks
  import opened Pages

  datatype ErrorMessage =
    | InvalidArgument(argument: string, reason: string)
    | NotFound(resource: string, id: Uuid)
    | Internal
    | Unimplemented

  /** `From<ApplicationError>`: argument, reason, resource and id carried over; an internal report is dropped. */
  function FromApplicationError(e: ApplicationError): (m: ErrorMessage)
    ensures e.InvalidArgument? <==> m.InvalidArgument?
    ensures e.InvalidArgument? ==> m.argument == e.argument && m.reason == e.reason
    ensures e.NotFound? <==> m.NotFound?
    ensures e.NotFound? ==> m.resource == e.resource && m.id == e.id
    ensures e.Internal? <==> m == ErrorMessage.Internal
    ensures !m.Unimplemented?
  {
    match e
    case InvalidArgument(argument, reason) => ErrorMessage.InvalidArgument(argument, reason)
    case NotFound(resource, id) => ErrorMessage.NotFound(resource, id)
    case Internal(_) => ErrorMessage.Internal
  }

  /** Only the internal report is lost: two errors with the same message differ at most in that report. */
  lemma FromApplicationErrorLosesOnlyReport(a: ApplicationError, b: ApplicationError)
    requires FromApplicationError(a) == FromApplicationError(b)
    ensures a == b || (a.Internal? && b.Internal?)
  {
  }

  datatype TagMessage = TagMessage(id: Uuid, title: string, createdAt: Timestamp, updatedAt: Timestamp)

  /** `From<Tag> for TagMessage`. */
  function ToTagMessage(t: LegacyTag): (m: TagMessage)
    ensures m.id == t.id && m.title == t.title && m.createdAt == t.createdAt && m.updatedAt == t.updatedAt
  {
    TagMessage(t.id, t.title, t.createdAt, t.updatedAt)
  }

  /** `From<TagMessage> for Tag`. */
  function FromTagMessage(m: TagMessage): (t: LegacyTag)
    ensures t.id == m.id && t.title == m.title && t.createdAt == m.createdAt && t.updatedAt == m.updatedAt
  {
    LegacyTag(m.id, m.title, m.createdAt, m.updatedAt)
  }

  /** A message converted to a tag and back is the same message. */
  lemma TagMessageRoundTrip(m: TagMessage)
    ensures ToTagMessage(FromTagMessage(m)) == m
  {
  }

  /** A tag converted to a message and back is the same tag. */
  lemma TagRoundTrip(t: LegacyTag)
    ensures FromTagMessage(ToTagMessage(t)) == t
  {
  }

  datatype PageMessage<T> = PageMessage(items: seq<T>, nextPageToken: Option<string>)

  /** `From<PageMessage<T>> for Page<E>`: every item converted in place, the token carried over. */
  function FromPageMessage<T, E>(m: PageMessage<T>, convert: T -> E): (p: Page<E>)
    ensures |p.items| == |m.items|
    ensures forall i :: 0 <= i < |m.items| ==> p.items[i] == convert(m.items[i])
    ensures p.nextPageToken.Some? <==> m.nextPageToken.Some?
    ensures p.nextPageToken.Some? ==> Deref(p.nextPageToken.value) == m.nextPageToken.value
  {
    var items := seq(|m.items|, i requires 0 <= i < |m.items| => convert(m.items[i]));
    var token := if m.nextPageToken.Some? then Some(FromString(m.nextPageToken.value)) else None;
    Page(items, token)
  }

  /** Converting pages commutes with putting two pages' items together. */
  lemma FromPageMessageAppend<T, E>(a: seq<T>, b: seq<T>, token: Option<string>, convert: T -> E)
    ensures FromPageMessage(PageMessage(a + b, token), convert).items
         == FromPageMessage(PageMessage(a, token), convert).items + FromPageMessage(PageMessage(b, token), convert).items
  {
  }
}
