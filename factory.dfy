/**
 * The factory service's brands: creating a brand in the `brands` table and
 * listing them, with every stored name checked again on the way out.
 */
module FactoryBrands {
  import opened Outcomes
  import opened Uuids
  import opened Text
  import opened Timestamps
  import opened Sql
  import opened Sorting
  import opened BrandNames

  /** The factory's application error, in the three kinds its web layer tells apart. */
  datatype AppError =
    | Validation(description: string)
    | ResourceAlreadyExists(description: string)
    | Repo(cause: SqlError)

  datatype Brand = Brand(id: Uuid, name: BrandName, createdAt: Timestamp, updatedAt: Timestamp)

  /** A stored row of `brands`, with the slug the insert derives from the name. */
  datatype StoredBrand = StoredBrand(id: Uuid, name: string, slug: string, createdAt: Timestamp, updatedAt: Timestamp)

  /** `BrandName::new` (and `FromStr`, which calls it): a failed check is a validation error. */
  function NewBrandName(value: string): (r: Result<BrandName, AppError>)
    ensures r.Ok? <==> CheckBrandName(value).Ok?
    ensures r.Ok? ==> r.value == BrandName(value)
    ensures r.Err? ==> r.error == Validation(CheckBrandName(value).error)
  {
    match CheckBrandName(value)
    case Ok(n) => Ok(n)
    case Err(message) => Err(Validation(message))
  }

  /** `TryFrom<BrandRow> for Brand`: the stored name is checked again; the other columns are copied. */
  function BrandFromRow(row: BrandRow): (r: Result<Brand, AppError>)
    ensures r.Ok? <==> NewBrandName(row.name).Ok?
    ensures r.Err? ==> r.error == NewBrandName(row.name).error
    ensures r.Ok? ==> r.value == Brand(row.id, BrandName(row.name), row.createdAt, row.updatedAt)
  {
    match NewBrandName(row.name)
    case Ok(name) => Ok(Brand(row.id, name, row.createdAt, row.updatedAt))
    case Err(e) => Err(e)
  }

  /** The columns `RETURNING` and `SELECT` give back for a stored row. */
  function Returned(s: StoredBrand): BrandRow {
    BrandRow(s.id, s.name, s.createdAt, s.updatedAt)
  }

  function Ids(rows: seq<StoredBrand>): set<Uuid> {
    set i | 0 <= i < |rows| :: rows[i].id
  }

  class BrandsTable {
    var rows: seq<StoredBrand>

    constructor ()
      ensures rows == []
    {
      rows := [];
    }

    /**
     * `insert_brand`: `INSERT INTO brands (name, slug) VALUES ($1, lower($1))`
     * returning the new row. A refused insert (a unique violation, say)
     * arrives as `fault` and changes nothing.
     */
    method InsertBrand(name: BrandName, id: Uuid, now: Timestamp, fault: Option<SqlError>) returns (r: Result<BrandRow, SqlError>)
      requires id !in Ids(rows)
      modifies this
      ensures fault.Some? ==> r == Err(fault.value) && rows == old(rows)
      ensures fault.None? ==> rows == old(rows) + [StoredBrand(id, name.value, Lower(name.value), now, now)]
      ensures fault.None? ==> r == Ok(BrandRow(id, name.value, now, now))
    {
      if fault.Some? {
        return Err(fault.value);
      }
      rows := rows + [StoredBrand(id, name.value, Lower(name.value), now, now)];
      r := Ok(BrandRow(id, name.value, now, now));
    }

    /** `select_brands`: every row, ordered by name (rows with equal names in any order). */
    function SelectBrands(): (r: seq<BrandRow>)
      reads this
      ensures Sorted(r, ByName)
      ensures multiset(r) == multiset(seq(|rows|, i requires 0 <= i < |rows| reads this => Returned(rows[i])))
    {
      ByNameIsTotalOrder();
      SortBy(seq(|rows|, i requires 0 <= i < |rows| reads this => Returned(rows[i])), ByName)
    }
  }

  /** The error `create_brand` reports for a refused insert. */
  function InsertFailure(name: string, e: SqlError): (r: AppError)
    ensures e.Database? && e.error.uniqueViolation ==>
      r == ResourceAlreadyExists("brand with the name " + name + " already exists")
    ensures !(e.Database? && e.error.uniqueViolation) ==> r == Repo(e)
  {
    if e.Database? && e.error.uniqueViolation then
      ResourceAlreadyExists("brand with the name " + name + " already exists")
    else Repo(e)
  }

  /**
   * `create_brand`: the name is checked before anything is written; a
   * valid name is inserted and the returned row converted back into a brand.
   */
  method CreateBrand(table: BrandsTable, name: string, id: Uuid, now: Timestamp, fault: Option<SqlError>)
    returns (r: Result<Brand, AppError>)
    requires id !in Ids(table.rows)
    modifies table
    ensures NewBrandName(name).Err? ==> r == Err(NewBrandName(name).error) && table.rows == old(table.rows)
    ensures NewBrandName(name).Ok? && fault.Some? ==>
      r == Err(InsertFailure(name, fault.value)) && table.rows == old(table.rows)
    ensures NewBrandName(name).Ok? && fault.None? ==>
      r == Ok(Brand(id, BrandName(name), now, now))
      && table.rows == old(table.rows) + [StoredBrand(id, name, Lower(name), now, now)]
  {
    var checked := NewBrandName(name);
    if checked.Err? {
      return Err(checked.error);
    }
    var inserted := table.InsertBrand(checked.value, id, now, fault);
    match inserted
    case Err(e) =>
      r := Err(InsertFailure(name, e));
    case Ok(row) =>
      r := BrandFromRow(row);
  }

  /** `list_brands`: the ordered rows, each checked again; one bad stored name fails the listing. */
  function ListBrands(table: BrandsTable): (r: Result<seq<Brand>, AppError>)
    reads table
    ensures r.Ok? <==> forall i :: 0 <= i < |table.SelectBrands()| ==> BrandFromRow(table.SelectBrands()[i]).Ok?
    ensures r.Ok? ==> |r.value| == |table.rows|
    ensures r.Ok? ==> forall i :: 0 <= i < |r.value| ==> BrandFromRow(table.SelectBrands()[i]) == Ok(r.value[i])
  {
    var rows := table.SelectBrands();
    assert |rows| == |multiset(rows)| == |table.rows|;
    CollectAllOkIff(rows, BrandFromRow);
    CollectAllEvery(rows, BrandFromRow);
    CollectAll(rows, BrandFromRow)
  }

  function BrandIds(brands: seq<Brand>): set<Uuid> {
    set i | 0 <= i < |brands| :: brands[i].id
  }

  /** A successful listing holds exactly the stored brands' ids. */
  lemma ListBrandsIds(table: BrandsTable)
    requires ListBrands(table).Ok?
    ensures BrandIds(ListBrands(table).value) == Ids(table.rows)
  {
    var listed := ListBrands(table).value;
    forall x | x in BrandIds(listed) ensures x in Ids(table.rows) {
      var i :| 0 <= i < |listed| && listed[i].id == x;
      ListedIdStored(table, i);
    }
    forall x | x in Ids(table.rows) ensures x in BrandIds(listed) {
      var j :| 0 <= j < |table.rows| && table.rows[j].id == x;
      StoredIdListed(table, j);
    }
  }

  lemma ListedIdStored(table: BrandsTable, i: nat)
    requires ListBrands(table).Ok? && i < |ListBrands(table).value|
    ensures ListBrands(table).value[i].id in Ids(table.rows)
  {
    var rows := table.SelectBrands();
    var stored := seq(|table.rows|, k requires 0 <= k < |table.rows| reads table => Returned(table.rows[k]));
    assert rows[i] in multiset(stored);
    var j :| 0 <= j < |stored| && stored[j] == rows[i];
    assert table.rows[j].id == ListBrands(table).value[i].id;
  }

  lemma StoredIdListed(table: BrandsTable, j: nat)
    requires ListBrands(table).Ok? && j < |table.rows|
    ensures table.rows[j].id in BrandIds(ListBrands(table).value)
  {
    var rows := table.SelectBrands();
    var stored := seq(|table.rows|, k requires 0 <= k < |table.rows| reads table => Returned(table.rows[k]));
    assert stored[j] in multiset(rows);
    var i :| 0 <= i < |rows| && rows[i] == stored[j];
    assert ListBrands(table).value[i].id == table.rows[j].id;
  }

  /** A listing that succeeds is ordered by name. */
  lemma ListBrandsOrdered(table: BrandsTable, i: nat, j: nat)
    requires ListBrands(table).Ok?
    requires i < j < |ListBrands(table).value|
    ensures NameNotAfter(ListBrands(table).value[i].name.value, ListBrands(table).value[j].name.value)
  {
    var rows := table.SelectBrands();
    ByNameIsTotalOrder();
    SortedPairwise(rows, ByName, i, j);
    CollectAllValues(rows, BrandFromRow, i);
    CollectAllValues(rows, BrandFromRow, j);
  }

  /** A failed listing reports the error of the first row, in name order, whose stored name fails the check. */
  lemma ListBrandsFirstError(table: BrandsTable, k: nat)
    requires k < |table.SelectBrands()| && BrandFromRow(table.SelectBrands()[k]).Err?
    requires forall i :: 0 <= i < k ==> BrandFromRow(table.SelectBrands()[i]).Ok?
    ensures ListBrands(table) == Err(NewBrandName(table.SelectBrands()[k].name).error)
  {
    CollectAllFirstError(table.SelectBrands(), BrandFromRow, k);
  }
}

/** The factory's HTTP error responses. */
module FactoryWeb {
  import opened Sql
  import opened FactoryBrands

  /** The `error` member of the response body. */
  datatype ErrorKind =
    | KindResourceAlreadyExists(text: string)
    | KindRepo(text: string)
    | KindValidation(text: string)

  datatype WebError = BadRequest(body: ErrorKind) | Internal(body: ErrorKind)

  /** `From<AppError> for ErrorKind`: the same kind, with the description (a storage error as its text). */
  function KindOf(e: AppError): (k: ErrorKind)
    ensures e.Validation? ==> k == KindValidation(e.description)
    ensures e.ResourceAlreadyExists? ==> k == KindResourceAlreadyExists(e.description)
    ensures e.Repo? ==> k == KindRepo(ErrorText(e.cause))
  {
    match e
    case Validation(d) => KindValidation(d)
    case ResourceAlreadyExists(d) => KindResourceAlreadyExists(d)
    case Repo(cause) => KindRepo(ErrorText(cause))
  }

  /** `From<AppError> for WebError`: client mistakes are 400s, storage failures 500s. */
  function WebErrorOf(e: AppError): (w: WebError)
    ensures w.body == KindOf(e)
    ensures w.Internal? <==> e.Repo?
  {
    match e
    case Validation(_) => BadRequest(KindOf(e))
    case ResourceAlreadyExists(_) => BadRequest(KindOf(e))
    case Repo(_) => Internal(KindOf(e))
  }

  /** The response status of each variant. */
  function Status(w: WebError): (code: nat)
    ensures code == 400 || code == 500
  {
    match w
    case BadRequest(_) => 400
    case Internal(_) => 500
  }

  /** Only storage failures are server errors; everything else is the client's. */
  lemma StatusOfAppError(e: AppError)
    ensures Status(WebErrorOf(e)) == 500 <==> e.Repo?
    ensures Status(WebErrorOf(e)) == 400 <==> !e.Repo?
  {
  }
}
