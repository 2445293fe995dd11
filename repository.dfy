/** The repository crate's pure parts: its error mapping, listing constants and row conversions. */
module Persistence {
  import opened Uuids
  import opened Sql
  import opened Tables
  import opened Protocol

  /** The application error of this crate: a missing row, or a repository failure with its text. */
  datatype RepositoryError = NotFound | Repository(message: string)

  /** `from_sqlx_err`: only `RowNotFound` is a missing record; anything else is a failure carrying the error's text. */
  function FromSqlxErr(e: SqlError): (r: RepositoryError)
    ensures r.NotFound? <==> e.RowNotFound?
    ensures r.Repository? ==> r.message == ErrorText(e)
  {
    match e
    case RowNotFound => NotFound
    case _ => Repository(ErrorText(e))
  }

  /** Rows per listing page. */
  const DEFAULT_PAGE_SIZE: int := 3

  /**
   * The alphabet of the page-token engine: the URL- and filename-safe base64
   * alphabet of section 5 of RFC 4648, used without padding.
   */
  const URL_SAFE_ALPHABET: string := "ABCDEFGHIJKLMNOPQRSTUVWXYZabcdefghijklmnopqrstuvwxyz0123456789-_"
  const PADDING: bool := false

  /** `From<TagRow> for Tag`: a field-for-field copy. */
  function TagFromRow(row: TagRow): (t: ProtocolTag)
    ensures t.id == row.id && t.title == row.title
    ensures t.createdAt == row.createdAt && t.updatedAt == row.updatedAt
  {
    ProtocolTag(row.id, row.title, row.createdAt, row.updatedAt)
  }

  /** Distinct rows give distinct tags. */
  lemma TagFromRowInjective(a: TagRow, b: TagRow)
    requires TagFromRow(a) == TagFromRow(b)
    ensures a == b
  {
  }

  /** `From<RemarkRow> for Remark`: the row's columns, and no tags, since the row carries none. */
  method RemarkFromRow(row: RemarkRow) returns (r: ProtocolRemark)
    ensures fresh(r)
    ensures r.id == row.id && r.essence == row.essence && r.tags == []
    ensures r.createdAt == row.createdAt && r.updatedAt == row.updatedAt
  {
    r := new ProtocolRemark(ProtocolRemarkAttributes(row.id, row.essence, [], row.createdAt, row.updatedAt));
  }
}
