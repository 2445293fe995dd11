/** The REST client's resource paths and its reading of API responses. */
module Client {
  import opened Outcomes
  import opened Uuids
  import opened AppErrors

  datatype Path = Remarks | Remark(id: Uuid) | Tag(id: Uuid) | Tags

  const REMARKS_PATH: string := "/remarks"
  const TAGS_PATH: string := "/tags"

  /** `Display for Path`: the collection path, then `/` and the id in hyphenated form for a single resource. */
  function PathText(p: Path): (s: string)
    ensures p == Remarks ==> s == REMARKS_PATH
    ensures p == Tags ==> s == TAGS_PATH
    ensures p.Remark? ==> s == REMARKS_PATH + "/" + UuidText(p.id)
    ensures p.Tag? ==> s == TAGS_PATH + "/" + UuidText(p.id)
  {
    match p
    case Remarks => REMARKS_PATH
    case Remark(id) => REMARKS_PATH + "/" + UuidText(id)
    case Tags => TAGS_PATH
    case Tag(id) => TAGS_PATH + "/" + UuidText(id)
  }

  /** Different paths are written differently. */
  lemma PathTextInjective(a: Path, b: Path)
    requires PathText(a) == PathText(b)
    ensures a == b
  {
    var sa, sb := PathText(a), PathText(b);
    if a.Remark? && b.Remark? {
      assert UuidText(a.id) == sa[9..] && UuidText(b.id) == sb[9..];
      UuidTextInjective(a.id, b.id);
    } else if a.Tag? && b.Tag? {
      assert UuidText(a.id) == sa[6..] && UuidText(b.id) == sb[6..];
      UuidTextInjective(a.id, b.id);
    } else {
      // Each kind of path has its own length: 8, 45, 5 and 42 characters.
      assert |sa| == |sb|;
    }
  }

  datatype ApiResponse<T> = ApiOk(value: T) | ApiErr(error: ApplicationError)

  /** `From<ApiResponse<T>> for ApplicationResult<T>`: success and failure kept apart, payloads unchanged. */
  function ToResult<T>(response: ApiResponse<T>): (r: Result<T, ApplicationError>)
    ensures r.Ok? <==> response.ApiOk?
    ensures r.Ok? ==> r.value == response.value
    ensures r.Err? ==> r.error == response.error
  {
    match response
    case ApiOk(value) => Ok(value)
    case ApiErr(error) => Err(error)
  }
}
