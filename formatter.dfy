/**
 * The client's presenters: the records a remark or a tag is turned into
 * before it is written out, and the shortened essence of a table row.
 */
module Formatter {
  import opened Uuids
  import opened Timestamps
  import opened Protocol

  datatype TagPresenter = TagPresenter(id: Uuid, title: string, createdAt: Timestamp, updatedAt: Timestamp)

  datatype RemarkPresenter = RemarkPresenter(
    id: Uuid,
    essence: string,
    tags: seq<TagPresenter>,
    createdAt: Timestamp,
    updatedAt: Timestamp)

  datatype RemarkRowPresenter = RemarkRowPresenter(id: Uuid, essence: string, createdAt: Timestamp, updatedAt: Timestamp)

  /** The widest essence a table row shows, in characters. */
  const ROW_ESSENCE_WIDTH: nat := 40
  /** How much of a too-long essence is kept before the ellipsis. */
  const ROW_ESSENCE_KEPT: nat := 37
  const ELLIPSIS: string := "..."

  /** `From<&Tag> for TagPresenter`. */
  function TagPresenterOf(t: ProtocolTag): (p: TagPresenter)
    ensures p.id == t.id && p.title == t.title
    ensures p.createdAt == t.createdAt && p.updatedAt == t.updatedAt
  {
    TagPresenter(t.id, t.title, t.createdAt, t.updatedAt)
  }

  /** The tag presenter loses nothing: different tags are presented differently. */
  lemma TagPresenterInjective(a: ProtocolTag, b: ProtocolTag)
    requires TagPresenterOf(a) == TagPresenterOf(b)
    ensures a == b
  {
  }

  /** `From<Remark> for RemarkPresenter`: the fields copied, each tag presented in order. */
  function RemarkPresenterOf(r: ProtocolRemark): (p: RemarkPresenter)
    reads r
    ensures p.id == r.id && p.essence == r.essence
    ensures p.createdAt == r.createdAt && p.updatedAt == r.updatedAt
    ensures |p.tags| == |r.tags|
    ensures forall i :: 0 <= i < |r.tags| ==> p.tags[i] == TagPresenterOf(r.tags[i])
  {
    RemarkPresenter(
      r.id,
      r.essence,
      seq(|r.tags|, i requires 0 <= i < |r.tags| reads r => TagPresenterOf(r.tags[i])),
      r.createdAt,
      r.updatedAt)
  }

  /** Neither is the remark presenter: equal presentations come from remarks with equal fields. */
  lemma RemarkPresenterInjective(a: ProtocolRemark, b: ProtocolRemark)
    requires RemarkPresenterOf(a) == RemarkPresenterOf(b)
    ensures a.id == b.id && a.essence == b.essence && a.tags == b.tags
    ensures a.createdAt == b.createdAt && a.updatedAt == b.updatedAt
  {
    forall i | 0 <= i < |a.tags| ensures a.tags[i] == b.tags[i] {
      TagPresenterInjective(a.tags[i], b.tags[i]);
    }
  }

  /**
   * `From<Remark> for RemarkRowPresenter`: an essence longer than 40 characters
   * is cut to its first 37 and followed by an ellipsis, so a row never shows
   * more than 40; a shorter one is shown whole.
   */
  method RowPresenterOf(r: ProtocolRemark) returns (p: RemarkRowPresenter)
    ensures p.id == r.id && p.createdAt == r.createdAt && p.updatedAt == r.updatedAt
    ensures |p.essence| <= ROW_ESSENCE_WIDTH
    ensures |r.essence| <= ROW_ESSENCE_WIDTH ==> p.essence == r.essence
    ensures |r.essence| > ROW_ESSENCE_WIDTH ==>
      |p.essence| == ROW_ESSENCE_WIDTH
      && p.essence[..ROW_ESSENCE_KEPT] == r.essence[..ROW_ESSENCE_KEPT]
      && p.essence[ROW_ESSENCE_KEPT..] == ELLIPSIS
  {
    var s := r.essence;
    if |s| > ROW_ESSENCE_WIDTH {
      s := s[..ROW_ESSENCE_KEPT];
      s := s + ELLIPSIS;
    }
    p := RemarkRowPresenter(r.id, s, r.createdAt, r.updatedAt);
  }
}
