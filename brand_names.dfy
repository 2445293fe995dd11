/**
 * `BrandName`, as the factory and both catalog crates define it: a string
 * whose UTF-8 length is between 2 and 100 bytes, stored unchanged.
 */
module BrandNames {
  import opened Outcomes
  import opened Uuids
  import opened Timestamps
  import opened Text
  import opened Sorting

  const MIN_BRAND_NAME_LENGTH: nat := 2
  const MAX_BRAND_NAME_LENGTH: nat := 100

  const TOO_SHORT: string := "brand name should be at least 2 characters long"
  const TOO_LONG: string := "brand name should be less or equal to 100 bytes"

  datatype BrandName = BrandName(value: string)

  /** The number of bytes UTF-8 uses for one scalar value. */
  function Utf8Width(c: char): (n: nat)
    ensures 1 <= n <= 4
    ensures n == 1 <==> c as int < 0x80
  {
    if c as int < 0x80 then 1
    else if c as int < 0x800 then 2
    else if c as int < 0x1_0000 then 3
    else 4
  }

  /** `str::len`: the length in bytes of the UTF-8 encoding. */
  function Utf8Length(s: string): (n: nat)
    ensures |s| <= n <= 4 * |s|
  {
    if s == [] then 0 else Utf8Width(s[0]) + Utf8Length(s[1..])
  }

  /** On ASCII text the byte length is the number of characters. */
  lemma {:induction false} Utf8LengthOfAscii(s: string)
    requires forall i :: 0 <= i < |s| ==> s[i] as int < 0x80
    ensures Utf8Length(s) == |s|
  {
    if s != [] {
      Utf8LengthOfAscii(s[1..]);
    }
  }

  /**
   * The shared check of `BrandName::new`: too short is reported before too
   * long, and an accepted value is kept exactly as given.
   */
  function CheckBrandName(value: string): (r: Result<BrandName, string>)
    ensures r.Ok? <==> MIN_BRAND_NAME_LENGTH <= Utf8Length(value) <= MAX_BRAND_NAME_LENGTH
    ensures r.Ok? ==> r.value.value == value
    ensures Utf8Length(value) < MIN_BRAND_NAME_LENGTH ==> r == Err(TOO_SHORT)
    ensures Utf8Length(value) > MAX_BRAND_NAME_LENGTH ==> r == Err(TOO_LONG)
  {
    if Utf8Length(value) < MIN_BRAND_NAME_LENGTH then Err(TOO_SHORT)
    else if Utf8Length(value) > MAX_BRAND_NAME_LENGTH then Err(TOO_LONG)
    else Ok(BrandName(value))
  }

  /** A name of valid length: what every `BrandName` holds. */
  predicate ValidBrandName(n: BrandName) {
    MIN_BRAND_NAME_LENGTH <= Utf8Length(n.value) <= MAX_BRAND_NAME_LENGTH
  }

  /** `as_str` and `Display` give back the text, which the check accepts again unchanged. */
  lemma AsStrRoundTrip(n: BrandName)
    requires ValidBrandName(n)
    ensures CheckBrandName(n.value) == Ok(n)
  {
  }

  /** Every name the check accepts is valid, and is the input itself. */
  lemma CheckedNamesAreValid(value: string)
    requires CheckBrandName(value).Ok?
    ensures ValidBrandName(CheckBrandName(value).value)
    ensures CheckBrandName(value).value.value == value
  {
  }

  /** The unit test's example. */
  lemma MikrotikAccepted()
    ensures CheckBrandName("Mikrotik") == Ok(BrandName("Mikrotik"))
  {
    Utf8LengthOfAscii("Mikrotik");
  }

  /** `ORDER BY name`: names compared character by character. */
  predicate NameNotAfter(a: string, b: string) {
    a == b || Less(a, b)
  }

  lemma NameOrder(a: string, b: string, c: string)
    ensures NameNotAfter(a, b) || NameNotAfter(b, a)
    ensures NameNotAfter(a, b) && NameNotAfter(b, c) ==> NameNotAfter(a, c)
    ensures NameNotAfter(a, b) && NameNotAfter(b, a) ==> a == b
  {
    LessTotal(a, b);
    if Less(a, b) && Less(b, c) {
      LessTransitive(a, b, c);
    }
    if Less(a, b) {
      LessAsymmetric(a, b);
    }
  }

  /** A row of `brands` as `RETURNING` and `SELECT` give it; the factory and the catalog repository read the same columns. */
  datatype BrandRow = BrandRow(id: Uuid, name: string, createdAt: Timestamp, updatedAt: Timestamp)

  /** `ORDER BY name`, the order both brand listings ask for. */
  function ByName(a: BrandRow, b: BrandRow): bool {
    NameNotAfter(a.name, b.name)
  }

  lemma ByNameIsTotalOrder()
    ensures Total(ByName) && Transitive(ByName)
  {
    forall a: BrandRow, b: BrandRow ensures ByName(a, b) || ByName(b, a) {
      NameOrder(a.name, b.name, a.name);
    }
    forall a: BrandRow, b: BrandRow, c: BrandRow | ByName(a, b) && ByName(b, c) ensures ByName(a, c) {
      NameOrder(a.name, b.name, c.name);
    }
  }
}
