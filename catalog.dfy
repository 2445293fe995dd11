/** The catalog library's brand definitions and its error type. */
module CatalogBrands {
  import opened Outcomes
  import opened Uuids
  import opened Timestamps
  import opened BrandNames

  datatype CatalogError =
    | Validation(description: string)
    | RecordNotFound
    | RecordAlreadyExists
    | Repo(description: string)
    | InvalidArgument(description: string)

  /** A brand of network devices: only its name. */
  datatype CatalogBrand = CatalogBrand(name: BrandName)

  /** A stored value with the identity and timestamps the repository gave it. */
  datatype Record<T> = Record(id: Uuid, data: T, createdAt: Timestamp, updatedAt: Timestamp)

  /**
   * `BrandName::new`, and `FromStr`, which calls it: the shared length
   * check, a failure reported as a validation error with its message.
   */
  function NewCatalogBrandName(value: string): (r: Result<BrandName, CatalogError>)
    ensures r.Ok? <==> MIN_BRAND_NAME_LENGTH <= Utf8Length(value) <= MAX_BRAND_NAME_LENGTH
    ensures r.Ok? ==> r.value == BrandName(value)
    ensures Utf8Length(value) < MIN_BRAND_NAME_LENGTH ==> r == Err(Validation(TOO_SHORT))
    ensures Utf8Length(value) > MAX_BRAND_NAME_LENGTH ==> r == Err(Validation(TOO_LONG))
  {
    match CheckBrandName(value)
    case Ok(n) => Ok(n)
    case Err(message) => Err(Validation(message))
  }

  /** `as_str` gives back text that the check accepts again as the same name. */
  lemma CatalogAsStrRoundTrip(value: string)
    requires NewCatalogBrandName(value).Ok?
    ensures NewCatalogBrandName(NewCatalogBrandName(value).value.value) == NewCatalogBrandName(value)
  {
  }

  /** The unit test's example. */
  lemma CatalogMikrotikAccepted()
    ensures NewCatalogBrandName("Mikrotik") == Ok(BrandName("Mikrotik"))
  {
    MikrotikAccepted();
  }
}

/** The PostgreSQL repository behind the catalog: the `brands` table and its statements. */
module CatalogRepo {
  import opened Outcomes
  import opened Uuids
  import opened Timestamps
  import opened Sql
  import opened Sorting
  import opened BrandNames
  import opened CatalogBrands

  /** `from_sqlx_err`: the storage errors the catalog distinguishes. */
  function FromSqlxErr(e: SqlError): (r: CatalogError)
    ensures e.RowNotFound? <==> r == RecordNotFound
    ensures e.Database? && e.error.uniqueViolation <==> r == RecordAlreadyExists
    ensures e.Database? && !e.error.uniqueViolation ==> r == Repo(e.error.message)
    ensures e.Other? ==> r == Repo(e.description)
    ensures r.Repo? || r.RecordNotFound? || r.RecordAlreadyExists?
  {
    match e
    case RowNotFound => RecordNotFound
    case Database(d) => if d.uniqueViolation then RecordAlreadyExists else Repo(d.message)
    case Other(_) => Repo(ErrorText(e))
  }

  /** `TryFrom<BrandRow> for Record<Brand>`: the stored name is checked again; the other columns are copied. */
  function RecordFromRow(row: BrandRow): (r: Result<Record<CatalogBrand>, CatalogError>)
    ensures r.Ok? <==> NewCatalogBrandName(row.name).Ok?
    ensures r.Err? ==> r.error == NewCatalogBrandName(row.name).error
    ensures r.Ok? ==> r.value == Record(row.id, CatalogBrand(BrandName(row.name)), row.createdAt, row.updatedAt)
  {
    match NewCatalogBrandName(row.name)
    case Ok(name) => Ok(Record(row.id, CatalogBrand(name), row.createdAt, row.updatedAt))
    case Err(e) => Err(e)
  }

  function Ids(rows: seq<BrandRow>): set<Uuid> {
    set i | 0 <= i < |rows| :: rows[i].id
  }

  predicate DistinctIds(rows: seq<BrandRow>) {
    forall i, j :: 0 <= i < j < |rows| ==> rows[i].id != rows[j].id
  }

  /** The row whose id is `id`, if there is one. */
  function FindRow(rows: seq<BrandRow>, id: Uuid): (r: Option<BrandRow>)
    ensures r.None? <==> id !in Ids(rows)
    ensures r.Some? ==> r.value in rows && r.value.id == id
  {
    if rows == [] then None
    else if rows[0].id == id then Some(rows[0])
    else
      assert Ids(rows) == {rows[0].id} + Ids(rows[1..]) by {
        forall x | x in Ids(rows) ensures x in {rows[0].id} + Ids(rows[1..]) {
          var i :| 0 <= i < |rows| && rows[i].id == x;
          if i > 0 { assert rows[1..][i - 1] == rows[i]; }
        }
      }
      FindRow(rows[1..], id)
  }

  /** `DELETE ... WHERE id = $1`: the rows without that id, in their order. */
  function WithoutId(rows: seq<BrandRow>, id: Uuid): (r: seq<BrandRow>)
    ensures forall x :: x in r <==> x in rows && x.id != id
    ensures |r| <= |rows|
  {
    if rows == [] then []
    else if rows[0].id == id then WithoutId(rows[1..], id)
    else [rows[0]] + WithoutId(rows[1..], id)
  }

  lemma {:induction false} WithoutIdKeepsDistinct(rows: seq<BrandRow>, id: Uuid)
    requires DistinctIds(rows)
    ensures DistinctIds(WithoutId(rows, id))
  {
    if rows != [] {
      WithoutIdKeepsDistinct(rows[1..], id);
      var rest := WithoutId(rows[1..], id);
      forall k | 0 <= k < |rest| ensures rest[k].id != rows[0].id {
        assert rest[k] in rows[1..];
      }
    }
  }

  lemma IdsOfMembers(rows: seq<BrandRow>)
    ensures forall id :: id in Ids(rows) <==> exists x :: x in rows && x.id == id
  {
    forall id | id in Ids(rows) ensures exists x :: x in rows && x.id == id {
      var i :| 0 <= i < |rows| && rows[i].id == id;
      assert rows[i] in rows;
    }
  }

  class CatalogRepository {
    var rows: seq<BrandRow>

    ghost predicate Valid()
      reads this
    {
      DistinctIds(rows)
    }

    constructor ()
      ensures Valid() && rows == []
    {
      rows := [];
    }

    /**
     * `insert_brand`: a new row for the brand's name; the record returned
     * holds the very brand that was given. A refused insert arrives as
     * `fault` and leaves the table as it was.
     */
    method InsertBrand(data: CatalogBrand, id: Uuid, now: Timestamp, fault: Option<SqlError>)
      returns (r: Result<Record<CatalogBrand>, CatalogError>)
      requires Valid() && id !in Ids(rows)
      modifies this
      ensures Valid()
      ensures fault.Some? ==> r == Err(FromSqlxErr(fault.value)) && rows == old(rows)
      ensures fault.None? ==> r == Ok(Record(id, data, now, now))
      ensures fault.None? ==> rows == old(rows) + [BrandRow(id, data.name.value, now, now)]
    {
      if fault.Some? {
        return Err(FromSqlxErr(fault.value));
      }
      assert forall i :: 0 <= i < |rows| ==> rows[i].id in Ids(rows);
      rows := rows + [BrandRow(id, data.name.value, now, now)];
      r := Ok(Record(id, data, now, now));
    }

    /**
     * `find_one_and_delete_brand`: the row with that id is deleted and then
     * converted. A missing id is `RecordNotFound`. The delete stands even
     * when the deleted row's name fails the check.
     */
    method FindOneAndDeleteBrand(id: Uuid, fault: Option<SqlError>)
      returns (r: Result<Record<CatalogBrand>, CatalogError>)
      requires Valid()
      modifies this
      ensures Valid()
      ensures fault.Some? ==> r == Err(FromSqlxErr(fault.value)) && rows == old(rows)
      ensures fault.None? && id !in Ids(old(rows)) ==> r == Err(RecordNotFound) && rows == old(rows)
      ensures fault.None? && id in Ids(old(rows)) ==>
        r == RecordFromRow(FindRow(old(rows), id).value)
        && rows == WithoutId(old(rows), id)
        && Ids(rows) == Ids(old(rows)) - {id}
    {
      if fault.Some? {
        return Err(FromSqlxErr(fault.value));
      }
      var found := FindRow(rows, id);
      if found.None? {
        return Err(FromSqlxErr(RowNotFound));
      }
      var before := rows;
      WithoutIdKeepsDistinct(rows, id);
      rows := WithoutId(rows, id);
      IdsOfMembers(before);
      IdsOfMembers(rows);
      r := RecordFromRow(found.value);
    }

    /** `select_brands`: every row ordered by name, each checked again; one bad name fails the call. */
    function SelectBrands(): (r: Result<seq<Record<CatalogBrand>>, CatalogError>)
      reads this
      ensures r.Ok? ==> |r.value| == |rows|
      ensures r.Ok? ==> forall i :: 0 <= i < |r.value| ==> RecordFromRow(SortedRows(this)[i]) == Ok(r.value[i])
    {
      var sorted := SortedRows(this);
      assert |sorted| == |multiset(sorted)| == |rows|;
      CollectAllEvery(sorted, RecordFromRow);
      CollectAll(sorted, RecordFromRow)
    }
  }

  /** The rows the listing is taken from, in name order. */
  function SortedRows(repo: CatalogRepository): (r: seq<BrandRow>)
    reads repo
    ensures Sorted(r, ByName)
    ensures multiset(r) == multiset(repo.rows)
  {
    ByNameIsTotalOrder();
    SortBy(repo.rows, ByName)
  }

  /** A listing succeeds exactly when every stored name passes the check, and is then ordered by name. */
  lemma SelectBrandsOrdered(repo: CatalogRepository, i: nat, j: nat)
    requires repo.SelectBrands().Ok?
    requires i < j < |repo.SelectBrands().value|
    ensures NameNotAfter(repo.SelectBrands().value[i].data.name.value, repo.SelectBrands().value[j].data.name.value)
  {
    var rows := SortedRows(repo);
    ByNameIsTotalOrder();
    SortedPairwise(rows, ByName, i, j);
    CollectAllValues(rows, RecordFromRow, i);
    CollectAllValues(rows, RecordFromRow, j);
  }

  /** A row of the sorted listing is a stored row, and the other way round. */
  lemma SortedRowsSameMembers(repo: CatalogRepository, x: BrandRow)
    ensures x in SortedRows(repo) <==> x in repo.rows
  {
    var rows := SortedRows(repo);
    assert x in rows <==> x in multiset(rows);
    assert x in repo.rows <==> x in multiset(repo.rows);
  }

  function RecordIds(records: seq<Record<CatalogBrand>>): set<Uuid> {
    set i | 0 <= i < |records| :: records[i].id
  }

  /** A successful listing holds exactly the stored rows' ids. */
  lemma SelectBrandsIds(repo: CatalogRepository)
    requires repo.SelectBrands().Ok?
    ensures RecordIds(repo.SelectBrands().value) == Ids(repo.rows)
  {
    var listed := repo.SelectBrands().value;
    forall x | x in RecordIds(listed) ensures x in Ids(repo.rows) {
      var i :| 0 <= i < |listed| && listed[i].id == x;
      ListedIdStored(repo, i);
    }
    forall x | x in Ids(repo.rows) ensures x in RecordIds(listed) {
      var j :| 0 <= j < |repo.rows| && repo.rows[j].id == x;
      StoredIdListed(repo, j);
    }
  }

  lemma ListedIdStored(repo: CatalogRepository, i: nat)
    requires repo.SelectBrands().Ok? && i < |repo.SelectBrands().value|
    ensures repo.SelectBrands().value[i].id in Ids(repo.rows)
  {
    var rows := SortedRows(repo);
    SortedRowsSameMembers(repo, rows[i]);
    var j :| 0 <= j < |repo.rows| && repo.rows[j] == rows[i];
  }

  lemma StoredIdListed(repo: CatalogRepository, j: nat)
    requires repo.SelectBrands().Ok? && j < |repo.rows|
    ensures repo.rows[j].id in RecordIds(repo.SelectBrands().value)
  {
    var rows := SortedRows(repo);
    SortedRowsSameMembers(repo, repo.rows[j]);
    var i :| 0 <= i < |rows| && rows[i] == repo.rows[j];
    assert repo.SelectBrands().value[i].id == repo.rows[j].id;
  }

  /** The listing fails exactly when some stored name fails the check. */
  lemma SelectBrandsFailsOnBadName(repo: CatalogRepository)
    ensures repo.SelectBrands().Err? <==> exists k :: 0 <= k < |repo.rows| && NewCatalogBrandName(repo.rows[k].name).Err?
  {
    var rows := SortedRows(repo);
    CollectAllOkIff(rows, RecordFromRow);
    if repo.SelectBrands().Err? {
      var i :| 0 <= i < |rows| && RecordFromRow(rows[i]).Err?;
      SortedRowsSameMembers(repo, rows[i]);
      var k :| 0 <= k < |repo.rows| && repo.rows[k] == rows[i];
    }
    if k :| 0 <= k < |repo.rows| && NewCatalogBrandName(repo.rows[k].name).Err? {
      SortedRowsSameMembers(repo, repo.rows[k]);
      var i :| 0 <= i < |rows| && rows[i] == repo.rows[k];
      assert RecordFromRow(rows[i]).Err?;
    }
  }
}

/**
 * The catalog's use cases, each run against the repository it is given
 * (here the `brands` table of the repository module).
 */
module CatalogService {
  import opened Outcomes
  import opened Uuids
  import opened Timestamps
  import opened Sql
  import opened BrandNames
  import opened CatalogBrands
  import opened CatalogRepo

  /**
   * `CreateBrand::execute`: the name is checked first and an invalid one
   * never reaches the repository; a valid one is inserted as a new brand.
   */
  method CreateBrand(repo: CatalogRepository, name: string, id: Uuid, now: Timestamp, fault: Option<SqlError>)
    returns (r: Result<Record<CatalogBrand>, CatalogError>)
    requires repo.Valid() && id !in Ids(repo.rows)
    modifies repo
    ensures repo.Valid()
    ensures NewCatalogBrandName(name).Err? ==> r == Err(NewCatalogBrandName(name).error) && repo.rows == old(repo.rows)
    ensures NewCatalogBrandName(name).Ok? && fault.Some? ==> r == Err(FromSqlxErr(fault.value)) && repo.rows == old(repo.rows)
    ensures NewCatalogBrandName(name).Ok? && fault.None? ==>
      r == Ok(Record(id, CatalogBrand(BrandName(name)), now, now))
      && repo.rows == old(repo.rows) + [BrandRow(id, name, now, now)]
  {
    var parsed := NewCatalogBrandName(name);
    if parsed.Err? {
      return Err(parsed.error);
    }
    r := repo.InsertBrand(CatalogBrand(parsed.value), id, now, fault);
  }

  /** `DeleteBrand::execute`: the repository's find-and-delete, its result passed on unchanged. */
  method DeleteBrand(repo: CatalogRepository, id: Uuid, fault: Option<SqlError>)
    returns (r: Result<Record<CatalogBrand>, CatalogError>)
    requires repo.Valid()
    modifies repo
    ensures repo.Valid()
    ensures fault.None? ==> id !in Ids(repo.rows)
    ensures fault.None? && id !in Ids(old(repo.rows)) ==> r == Err(RecordNotFound) && repo.rows == old(repo.rows)
    ensures fault.None? && id in Ids(old(repo.rows)) ==>
      r == RecordFromRow(FindRow(old(repo.rows), id).value) && repo.rows == WithoutId(old(repo.rows), id)
    ensures fault.Some? ==> r == Err(FromSqlxErr(fault.value)) && repo.rows == old(repo.rows)
  {
    r := repo.FindOneAndDeleteBrand(id, fault);
  }

  /** `ListBrands::execute`: the repository's listing, unchanged. */
  method ListBrands(repo: CatalogRepository) returns (r: Result<seq<Record<CatalogBrand>>, CatalogError>)
    ensures r == repo.SelectBrands()
    ensures r.Err? <==> exists k :: 0 <= k < |repo.rows| && NewCatalogBrandName(repo.rows[k].name).Err?
    ensures r.Ok? ==> forall i :: 0 <= i < |r.value| ==> RecordFromRow(SortedRows(repo)[i]) == Ok(r.value[i])
    ensures r.Ok? ==> RecordIds(r.value) == Ids(repo.rows)
  {
    r := repo.SelectBrands();
    SelectBrandsFailsOnBadName(repo);
    if r.Ok? {
      SelectBrandsIds(repo);
    }
  }
}

/**
 * The earlier snapshot of the catalog library: the same name check, and a
 * create operation over an injected insert.
 */
module OldCatalog {
  import opened Outcomes
  import opened BrandNames
  import opened CatalogBrands

  /**
   * `CreateBrand::execute`: an invalid name fails before the repository
   * is asked; a valid one is handed to `insert` and its answer returned.
   */
  function CreateBrand(name: string, insert: CatalogBrand -> Result<Record<CatalogBrand>, CatalogError>)
    : (r: Result<Record<CatalogBrand>, CatalogError>)
    ensures NewCatalogBrandName(name).Err? ==> r == Err(NewCatalogBrandName(name).error)
    ensures NewCatalogBrandName(name).Ok? ==> r == insert(CatalogBrand(BrandName(name)))
  {
    match NewCatalogBrandName(name)
    case Err(e) => Err(e)
    case Ok(n) => insert(CatalogBrand(n))
  }

  /** Whatever the repository does, a name of the wrong length is refused with a validation error. */
  lemma CreateBrandRejectsBadLength(name: string, insert: CatalogBrand -> Result<Record<CatalogBrand>, CatalogError>)
    requires Utf8Length(name) < MIN_BRAND_NAME_LENGTH || Utf8Length(name) > MAX_BRAND_NAME_LENGTH
    ensures CreateBrand(name, insert).Err? && CreateBrand(name, insert).error.Validation?
  {
  }
}

/** The catalog's HTTP error responses. */
module CatalogRestApi {
  import opened CatalogBrands

  /** The `error` member of the response body. */
  datatype ErrorKind =
    | KindInvalidArgument(text: string)
    | KindRecordAlreadyExists
    | KindRecordNotFound
    | KindRepo(text: string)
    | KindValidation(text: string)

  datatype ApiError = BadRequest(body: ErrorKind) | Internal(body: ErrorKind) | NotFound(body: ErrorKind)

  /** `From<CatalogError> for ErrorKind`: the same variant with the same text. */
  function KindOf(e: CatalogError): (k: ErrorKind)
    ensures e.Validation? <==> k.KindValidation?
    ensures e.RecordNotFound? <==> k.KindRecordNotFound?
    ensures e.RecordAlreadyExists? <==> k.KindRecordAlreadyExists?
    ensures e.Repo? <==> k.KindRepo?
    ensures e.InvalidArgument? <==> k.KindInvalidArgument?
    ensures e.Validation? || e.Repo? || e.InvalidArgument? ==> k.text == e.description
  {
    match e
    case Validation(d) => KindValidation(d)
    case RecordNotFound => KindRecordNotFound
    case RecordAlreadyExists => KindRecordAlreadyExists
    case Repo(d) => KindRepo(d)
    case InvalidArgument(d) => KindInvalidArgument(d)
  }

  /** The body loses nothing: different errors give different bodies. */
  lemma KindOfInjective(a: CatalogError, b: CatalogError)
    requires KindOf(a) == KindOf(b)
    ensures a == b
  {
  }

  /** `From<CatalogError> for Error`: the response variant, always with the error's own body. */
  function ApiErrorOf(e: CatalogError): (w: ApiError)
    ensures w.body == KindOf(e)
    ensures w.NotFound? <==> e.RecordNotFound?
    ensures w.Internal? <==> e.Repo?
  {
    match e
    case Validation(_) => BadRequest(KindOf(e))
    case RecordNotFound => NotFound(KindOf(e))
    case RecordAlreadyExists => BadRequest(KindOf(e))
    case Repo(_) => Internal(KindOf(e))
    case InvalidArgument(_) => BadRequest(KindOf(e))
  }

  /** The status each response variant is sent with. */
  function Status(w: ApiError): (code: nat)
    ensures code in {400, 404, 500}
    ensures code == 400 <==> w.BadRequest?
    ensures code == 404 <==> w.NotFound?
    ensures code == 500 <==> w.Internal?
  {
    match w
    case BadRequest(_) => 400
    case Internal(_) => 500
    case NotFound(_) => 404
  }

  /** Storage failures are 500s, a missing record 404, and every other error the client's 400. */
  lemma StatusOfCatalogError(e: CatalogError)
    ensures Status(ApiErrorOf(e)) == 500 <==> e.Repo?
    ensures Status(ApiErrorOf(e)) == 404 <==> e.RecordNotFound?
    ensures Status(ApiErrorOf(e)) == 400 <==> e.Validation? || e.RecordAlreadyExists? || e.InvalidArgument?
  {
  }
}
