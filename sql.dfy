/** The `sqlx::Error` cases the crates tell apart, and their display text. */
module Sql {
  /** A database-reported error: its own message and whether it is a unique-key violation. */
  datatype DatabaseError = DatabaseError(message: string, uniqueViolation: bool)

  datatype SqlError =
    | RowNotFound
    | Database(error: DatabaseError)
    | Other(description: string)

  const ROW_NOT_FOUND_TEXT: string := "no rows returned by a query that expected to return at least one row"
  const DATABASE_PREFIX: string := "error returned from database: "

  /** `sqlx::Error::to_string`: a database error is shown behind a fixed prefix. */
  function ErrorText(e: SqlError): (t: string)
    ensures e.Database? ==> t == DATABASE_PREFIX + e.error.message
    ensures e.RowNotFound? ==> t == ROW_NOT_FOUND_TEXT
  {
    match e
    case RowNotFound => ROW_NOT_FOUND_TEXT
    case Database(d) => DATABASE_PREFIX + d.message
    case Other(description) => description
  }
}
