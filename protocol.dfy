/**
 * The protocol crate's remark and tag records: unchecked strings, and a
 * `create_remark` that only trims before handing the remark on.
 */
module Protocol {
  import opened Outcomes
  import opened Uuids
  import opened Text
  import opened Timestamps

  /** `Tag` of the protocol crate: the title is kept as given. */
  datatype ProtocolTag = ProtocolTag(id: Uuid, title: string, createdAt: Timestamp, updatedAt: Timestamp)

  datatype ProtocolRemarkAttributes = ProtocolRemarkAttributes(
    id: Uuid,
    essence: string,
    tags: seq<ProtocolTag>,
    createdAt: Timestamp,
    updatedAt: Timestamp)

  datatype NewRemark = NewRemark(essence: string, tags: seq<string>)

  /** The repository failure the protocol crate reports, with its message. */
  datatype ProtocolError = RepositoryFailure(report: string)

  /** A change request for one remark: a new essence, tags to add and tags to remove. */
  datatype RemarkUpdates = RemarkUpdates(id: Uuid, essence: Option<string>, addTags: seq<string>, removeTags: seq<string>)

  /** `RemarkUpdates::is_empty`: the request changes nothing. */
  predicate IsEmpty(u: RemarkUpdates) {
    u.addTags == [] && u.removeTags == [] && u.essence.None?
  }

  class ProtocolRemark {
    const id: Uuid
    const essence: string
    var tags: seq<ProtocolTag>
    const createdAt: Timestamp
    const updatedAt: Timestamp

    /** `Remark::new`: every attribute kept, the essence neither checked nor trimmed. */
    constructor (attributes: ProtocolRemarkAttributes)
      ensures id == attributes.id && essence == attributes.essence && tags == attributes.tags
      ensures createdAt == attributes.createdAt && updatedAt == attributes.updatedAt
    {
      id := attributes.id;
      essence := attributes.essence;
      tags := attributes.tags;
      createdAt := attributes.createdAt;
      updatedAt := attributes.updatedAt;
    }

    /** `set_tags`: the list is replaced as given. */
    method SetTags(newTags: seq<ProtocolTag>)
      modifies this
      ensures tags == newTags
    {
      tags := newTags;
    }
  }

  /**
   * `sanitize_essence` and `sanitize_tag`: surrounding whitespace is cut,
   * nothing is rejected, and the result is a slice of the input.
   */
  function Sanitize(s: string): (r: string)
    ensures Trimmed(r)
    ensures AllWhitespace(s) ==> r == []
    ensures exists i, j :: 0 <= i <= j <= |s| && r == s[i..j] && AllWhitespace(s[..i]) && AllWhitespace(s[j..])
  {
    TrimIsTrimmed(s);
    TrimIsSlice(s);
    TrimEmptyIff(s);
    Trim(s)
  }

  /** The remark `create_remark` hands on: the essence and every tag sanitised, count and order kept. */
  function SanitizeNewRemark(n: NewRemark): (r: NewRemark)
    ensures r.essence == Sanitize(n.essence)
    ensures |r.tags| == |n.tags|
    ensures forall i :: 0 <= i < |n.tags| ==> r.tags[i] == Sanitize(n.tags[i])
  {
    NewRemark(Sanitize(n.essence), seq(|n.tags|, i requires 0 <= i < |n.tags| => Sanitize(n.tags[i])))
  }

  /** Sanitising twice is sanitising once. */
  lemma SanitizeNewRemarkIdempotent(n: NewRemark)
    ensures SanitizeNewRemark(SanitizeNewRemark(n)) == SanitizeNewRemark(n)
  {
    TrimIdempotent(n.essence);
    forall i | 0 <= i < |n.tags| ensures Sanitize(Sanitize(n.tags[i])) == Sanitize(n.tags[i]) {
      TrimIdempotent(n.tags[i]);
    }
  }

  /**
   * `create_remark`: the repository (`insert`) receives the sanitised remark
   * and its answer is returned unchanged, without any check of its own.
   */
  function CreateRemark(n: NewRemark, insert: NewRemark -> Result<Uuid, ProtocolError>): (r: Result<Uuid, ProtocolError>)
    ensures r == insert(SanitizeNewRemark(n))
  {
    insert(SanitizeNewRemark(n))
  }

  /** Blank values are not refused: a whitespace-only essence or tag reaches the repository as an empty string. */
  lemma BlankValuesForwarded(n: NewRemark, i: nat)
    requires AllWhitespace(n.essence)
    requires i < |n.tags| && AllWhitespace(n.tags[i])
    ensures SanitizeNewRemark(n).essence == [] && SanitizeNewRemark(n).tags[i] == []
  {
  }
}
