/**
 * The `remarks`, `tags` and `remarks_tags` tables, and the SQL statements the
 * repository and dataspine crates run against them. The database's generated
 * ids and `DEFAULT` timestamps arrive as parameters (`id`, `now`).
 */
module Tables {
  import opened Outcomes
  import opened Uuids
  import opened Text
  import opened Timestamps
  import opened Sql
  import opened Sorting

  datatype RemarkRow = RemarkRow(id: Uuid, essence: string, createdAt: Timestamp, updatedAt: Timestamp)
  datatype TagRow = TagRow(id: Uuid, title: string, createdAt: Timestamp, updatedAt: Timestamp)
  datatype RemarkTagRow = RemarkTagRow(remarkId: Uuid, tagId: Uuid)

  /** `ORDER BY created_at DESC`: newer rows first. */
  function NewerFirst(a: TagRow, b: TagRow): bool {
    a.createdAt >= b.createdAt
  }

  lemma NewerFirstIsTotalOrder()
    ensures Total(NewerFirst) && Transitive(NewerFirst)
  {
  }

  /** The tag rows joined to `remarkId` through `links`, one per matching link, in link order. */
  function LinkedTags(links: seq<RemarkTagRow>, tags: map<Uuid, TagRow>, remarkId: Uuid): seq<TagRow> {
    if links == [] then []
    else
      var rest := LinkedTags(links[1..], tags, remarkId);
      if links[0].remarkId == remarkId && links[0].tagId in tags then [tags[links[0].tagId]] + rest
      else rest
  }

  /** A row appears in the join exactly when its tag is stored and linked to the remark. */
  lemma {:induction false} LinkedTagsMembers(links: seq<RemarkTagRow>, tags: map<Uuid, TagRow>, remarkId: Uuid, t: TagRow)
    requires forall k :: k in tags ==> tags[k].id == k
    ensures t in LinkedTags(links, tags, remarkId) <==>
      (t.id in tags && tags[t.id] == t && RemarkTagRow(remarkId, t.id) in links)
  {
    if links != [] {
      LinkedTagsMembers(links[1..], tags, remarkId, t);
      assert links == [links[0]] + links[1..];
    }
  }

  /** The links left after deleting every row equal to `row`, order kept. */
  function RemoveLink(links: seq<RemarkTagRow>, row: RemarkTagRow): (r: seq<RemarkTagRow>)
    ensures row !in r
    ensures multiset(r) == multiset(links)[row := 0]
    ensures |r| == |links| - multiset(links)[row]
  {
    if links == [] then []
    else
      var rest := RemoveLink(links[1..], row);
      assert links == [links[0]] + links[1..];
      if links[0] == row then rest else [links[0]] + rest
  }

  /** The links whose remark is among `ids`, order kept. */
  function KeepReferenced(links: seq<RemarkTagRow>, ids: set<Uuid>): (r: seq<RemarkTagRow>)
    ensures forall l :: l in r <==> l in links && l.remarkId in ids
    ensures forall l :: multiset(r)[l] == if l.remarkId in ids then multiset(links)[l] else 0
  {
    if links == [] then []
    else
      var rest := KeepReferenced(links[1..], ids);
      assert links == [links[0]] + links[1..];
      if links[0].remarkId in ids then [links[0]] + rest else rest
  }

  /** Sweeping a second time removes nothing more. */
  lemma {:induction false} KeepReferencedIdempotent(links: seq<RemarkTagRow>, ids: set<Uuid>)
    ensures KeepReferenced(KeepReferenced(links, ids), ids) == KeepReferenced(links, ids)
  {
    if links != [] {
      KeepReferencedIdempotent(links[1..], ids);
    }
  }

  class Database {
    var remarks: map<Uuid, RemarkRow>
    var tags: map<Uuid, TagRow>
    var remarksTags: seq<RemarkTagRow>

    /** Every row is stored under its own id. */
    ghost predicate Valid()
      reads this
    {
      (forall k :: k in remarks ==> remarks[k].id == k)
      && (forall k :: k in tags ==> tags[k].id == k)
    }

    constructor ()
      ensures Valid() && remarks == map[] && tags == map[] && remarksTags == []
    {
      remarks := map[];
      tags := map[];
      remarksTags := [];
    }

    /**
     * `INSERT INTO tags ( title ) VALUES ( lower($1) ) RETURNING id`. A refused
     * insert (a unique violation, say) arrives as `fault` and changes nothing.
     */
    method CreateTag(title: string, id: Uuid, now: Timestamp, fault: Option<SqlError>) returns (r: Result<Uuid, SqlError>)
      requires Valid() && id !in tags
      modifies this
      ensures Valid()
      ensures fault.Some? ==> r == Err(fault.value) && unchanged(this)
      ensures fault.None? ==> r == Ok(id) && tags == old(tags)[id := TagRow(id, Lower(title), now, now)]
      ensures fault.None? ==> |tags| == |old(tags)| + 1
      ensures remarks == old(remarks) && remarksTags == old(remarksTags)
    {
      if fault.Some? {
        return Err(fault.value);
      }
      tags := tags[id := TagRow(id, Lower(title), now, now)];
      r := Ok(id);
    }

    /** The dataspine's tag insert: `INSERT INTO tags ( title ) VALUES ( $1 )`, the title kept verbatim. */
    method CreateTagVerbatim(title: string, id: Uuid, now: Timestamp, fault: Option<SqlError>) returns (r: Result<Uuid, SqlError>)
      requires Valid() && id !in tags
      modifies this
      ensures Valid()
      ensures fault.Some? ==> r == Err(fault.value) && unchanged(this)
      ensures fault.None? ==> r == Ok(id) && tags == old(tags)[id := TagRow(id, title, now, now)]
      ensures fault.None? ==> |tags| == |old(tags)| + 1
      ensures remarks == old(remarks) && remarksTags == old(remarksTags)
    {
      if fault.Some? {
        return Err(fault.value);
      }
      tags := tags[id := TagRow(id, title, now, now)];
      r := Ok(id);
    }

    /** `DELETE FROM tags WHERE id = $1`: one row affected when the id is present, none otherwise. */
    method DeleteTag(id: Uuid) returns (affected: nat)
      requires Valid()
      modifies this
      ensures Valid()
      ensures affected == if id in old(tags) then 1 else 0
      ensures tags == old(tags) - {id} && id !in tags
      ensures remarks == old(remarks) && remarksTags == old(remarksTags)
    {
      affected := if id in tags then 1 else 0;
      tags := tags - {id};
    }

    /** `SELECT * FROM tags WHERE id = $1` with `fetch_one`: a missing row is `RowNotFound`. */
    function GetTag(id: Uuid): (r: Result<TagRow, SqlError>)
      reads this
      ensures r.Ok? <==> id in tags
      ensures r.Ok? ==> r.value == tags[id]
      ensures r.Err? ==> r.error == RowNotFound
    {
      if id in tags then Ok(tags[id]) else Err(RowNotFound)
    }

    /** `SELECT id FROM tags WHERE title = lower($1)` with `fetch_optional`: some matching row, if any. */
    method FindTag(title: string) returns (r: Option<Uuid>)
      requires Valid()
      ensures r.Some? <==> exists k :: k in tags && tags[k].title == Lower(title)
      ensures r.Some? ==> r.value in tags && tags[r.value].title == Lower(title)
    {
      if k :| k in tags && tags[k].title == Lower(title) {
        r := Some(k);
      } else {
        r := None;
      }
    }

    /**
     * Titles are lower-cased on the way in and on lookup, so a tag created
     * with any letter case is found again by a query in any other letter case.
     */
    method FoundAfterCreate(title: string, id: Uuid, now: Timestamp, query: string) returns (created: Result<Uuid, SqlError>, found: Option<Uuid>)
      requires Valid() && id !in tags
      requires Lower(query) == Lower(title)
      modifies this
      ensures Valid()
      ensures created == Ok(id) && id in tags
      ensures found.Some? && found.value in tags && tags[found.value].title == Lower(title)
    {
      created := CreateTag(title, id, now, None);
      found := FindTag(query);
    }

    /** `UPDATE tags SET title = lower($2), updated_at = DEFAULT WHERE id = $1`. */
    method UpdateTag(id: Uuid, title: string, now: Timestamp) returns (affected: nat)
      requires Valid()
      modifies this
      ensures Valid()
      ensures affected == if id in old(tags) then 1 else 0
      ensures id in old(tags) ==> tags == old(tags)[id := old(tags)[id].(title := Lower(title), updatedAt := now)]
      ensures id !in old(tags) ==> tags == old(tags)
      ensures remarks == old(remarks) && remarksTags == old(remarksTags)
    {
      if id in tags {
        tags := tags[id := tags[id].(title := Lower(title), updatedAt := now)];
        affected := 1;
      } else {
        affected := 0;
      }
    }

    /** `INSERT INTO remarks ( essence ) VALUES ( $1 ) RETURNING id`. */
    method CreateRemark(essence: string, id: Uuid, now: Timestamp) returns (r: Uuid)
      requires Valid() && id !in remarks
      modifies this
      ensures Valid()
      ensures r == id && remarks == old(remarks)[id := RemarkRow(id, essence, now, now)]
      ensures |remarks| == |old(remarks)| + 1
      ensures tags == old(tags) && remarksTags == old(remarksTags)
    {
      remarks := remarks[id := RemarkRow(id, essence, now, now)];
      r := id;
    }

    /** `DELETE FROM remarks WHERE id = $1`; links to the remark are left for the sweep. */
    method DeleteRemark(id: Uuid) returns (affected: nat)
      requires Valid()
      modifies this
      ensures Valid()
      ensures affected == if id in old(remarks) then 1 else 0
      ensures remarks == old(remarks) - {id} && id !in remarks
      ensures tags == old(tags) && remarksTags == old(remarksTags)
    {
      affected := if id in remarks then 1 else 0;
      remarks := remarks - {id};
    }

    /** `SELECT * FROM remarks WHERE id = $1` with `fetch_one`. */
    function GetRemark(id: Uuid): (r: Result<RemarkRow, SqlError>)
      reads this
      ensures r.Ok? <==> id in remarks
      ensures r.Ok? ==> r.value == remarks[id]
      ensures r.Err? ==> r.error == RowNotFound
    {
      if id in remarks then Ok(remarks[id]) else Err(RowNotFound)
    }

    /** The dataspine's `SELECT essence FROM remarks WHERE id = $1`: the essence column only. */
    function GetEssence(id: Uuid): (r: Result<string, SqlError>)
      reads this
      ensures r.Ok? <==> GetRemark(id).Ok?
      ensures r.Ok? ==> r.value == GetRemark(id).value.essence
      ensures r.Err? ==> r.error == RowNotFound
    {
      if id in remarks then Ok(remarks[id].essence) else Err(RowNotFound)
    }

    /** `UPDATE remarks SET essence = $2, updated_at = DEFAULT WHERE id = $1`. */
    method UpdateRemark(id: Uuid, essence: string, now: Timestamp) returns (affected: nat)
      requires Valid()
      modifies this
      ensures Valid()
      ensures affected == if id in old(remarks) then 1 else 0
      ensures id in old(remarks) ==> remarks == old(remarks)[id := old(remarks)[id].(essence := essence, updatedAt := now)]
      ensures id in old(remarks) ==> GetEssence(id) == Ok(essence)
      ensures id !in old(remarks) ==> remarks == old(remarks)
      ensures tags == old(tags) && remarksTags == old(remarksTags)
    {
      if id in remarks {
        remarks := remarks[id := remarks[id].(essence := essence, updatedAt := now)];
        affected := 1;
      } else {
        affected := 0;
      }
    }

    /**
     * `list_tags`: the tags joined to the remark through `remarks_tags`,
     * `ORDER BY tags.created_at DESC` (rows with equal times in any order).
     */
    function ListTags(remarkId: Uuid): (r: seq<TagRow>)
      requires Valid()
      reads this
      ensures Sorted(r, NewerFirst)
      ensures multiset(r) == multiset(LinkedTags(remarksTags, tags, remarkId))
      ensures forall t :: t in r <==> (t.id in tags && tags[t.id] == t && RemarkTagRow(remarkId, t.id) in remarksTags)
    {
      NewerFirstIsTotalOrder();
      var r := SortBy(LinkedTags(remarksTags, tags, remarkId), NewerFirst);
      forall t ensures t in r <==> (t.id in tags && tags[t.id] == t && RemarkTagRow(remarkId, t.id) in remarksTags) {
        assert t in r <==> t in multiset(r);
        LinkedTagsMembers(remarksTags, tags, remarkId, t);
      }
      r
    }

    /** `INSERT INTO remarks_tags ( remark_id, tag_id ) VALUES ( $1, $2 )`. */
    method CreateRemarkTag(remarkId: Uuid, tagId: Uuid)
      requires Valid()
      modifies this
      ensures Valid()
      ensures remarksTags == old(remarksTags) + [RemarkTagRow(remarkId, tagId)]
      ensures |remarksTags| == |old(remarksTags)| + 1
      ensures RemarkTagExists(remarkId, tagId)
      ensures remarks == old(remarks) && tags == old(tags)
    {
      remarksTags := remarksTags + [RemarkTagRow(remarkId, tagId)];
      assert remarksTags[|remarksTags| - 1] == RemarkTagRow(remarkId, tagId);
    }

    /** `SELECT EXISTS( SELECT 1 FROM remarks_tags WHERE remark_id = $1 AND tag_id = $2 )`. */
    function RemarkTagExists(remarkId: Uuid, tagId: Uuid): (b: bool)
      reads this
      ensures b <==> exists i :: 0 <= i < |remarksTags| && remarksTags[i].remarkId == remarkId && remarksTags[i].tagId == tagId
    {
      RemarkTagRow(remarkId, tagId) in remarksTags
    }

    /**
     * The dataspine's `DELETE FROM remarks_tags WHERE remark_id = $1 AND tag_id = $2`:
     * every matching row goes, every other row stays, and the count removed is reported.
     */
    method DeleteRemarkTag(remarkId: Uuid, tagId: Uuid) returns (affected: nat)
      requires Valid()
      modifies this
      ensures Valid()
      ensures remarksTags == RemoveLink(old(remarksTags), RemarkTagRow(remarkId, tagId))
      ensures affected == multiset(old(remarksTags))[RemarkTagRow(remarkId, tagId)]
      ensures affected == |old(remarksTags)| - |remarksTags|
      ensures !RemarkTagExists(remarkId, tagId)
      ensures forall l :: l != RemarkTagRow(remarkId, tagId) ==> multiset(remarksTags)[l] == multiset(old(remarksTags))[l]
      ensures remarks == old(remarks) && tags == old(tags)
    {
      var row := RemarkTagRow(remarkId, tagId);
      affected := multiset(remarksTags)[row];
      remarksTags := RemoveLink(remarksTags, row);
    }

    /**
     * `delete_unused_remarks_tags`: removes exactly the links whose remark no
     * longer exists; afterwards every link refers to a stored remark.
     */
    method DeleteUnusedRemarksTags()
      requires Valid()
      modifies this
      ensures Valid()
      ensures remarksTags == KeepReferenced(old(remarksTags), remarks.Keys)
      ensures forall l :: l in remarksTags ==> l.remarkId in remarks
      ensures forall l :: l in old(remarksTags) && l.remarkId in remarks ==> l in remarksTags
      ensures remarks == old(remarks) && tags == old(tags)
    {
      remarksTags := KeepReferenced(remarksTags, remarks.Keys);
    }
  }
}
