/** The in-memory form of a CSV file as `csv.DictReader` delivers it, the
    schema gate every script applies first, and the ways a run can end. */
module Table {
  import opened Wrappers
  import opened Strings

  /** One CSV row: header name to cell text. */
  type Row = map<string, string>

  /** A whole file: the header line and the rows, in file order. */
  datatype Sheet = Sheet(header: seq<string>, rows: seq<Row>)

  /** The identifier and slug columns the scripts read and fill in. */
  const CprDocumentId := "CPR Document ID"
  const CprDocumentSlug := "CPR Document Slug"
  const CprFamilyId := "CPR Family ID"
  const CprFamilySlug := "CPR Family Slug"
  const CprCollectionId := "CPR Collection ID"
  const CprDocumentStatus := "CPR Document Status"

  /** `row.get(key, "")`. `DictReader` gives every row every header key, so
      for a column the schema gate has admitted this is also `row[key]`. */
  function Field(row: Row, key: string): string {
    if key in row then row[key] else ""
  }

  /** `row[key].strip()`. */
  function Cell(row: Row, key: string): string {
    Strip(Field(row, key))
  }

  /** `not row[key].strip()`. */
  predicate Blank(row: Row, key: string) {
    Cell(row, key) == ""
  }

  /** `set(required) - set(header)`. */
  function MissingColumns(required: seq<string>, header: seq<string>): (missing: set<string>)
    ensures forall c :: c in missing <==> c in required && c !in header
  {
    set c | c in required && c !in header
  }

  /** `set(required).issubset(set(header))`. */
  predicate HasColumns(required: seq<string>, header: seq<string>) {
    forall c :: c in required ==> c in header
  }

  /** The gate passes exactly when nothing is missing. */
  lemma HasColumnsIff(required: seq<string>, header: seq<string>)
    ensures HasColumns(required, header) <==> MissingColumns(required, header) == {}
  {
    if !HasColumns(required, header) {
      var c :| c in required && c !in header;
      assert c in MissingColumns(required, header);
    }
  }

  /** Which per-row check a row failed, one per diagnostic the scripts print. */
  datatype ErrorKind =
    | NoCategory
    | NoActionId
    | NoTitle
    | EmptyFamilyName
    | MalformedDocumentId
    | DuplicateDocumentSlug
    | DuplicateDocumentId
    | ConflictingFamilyName
    | DuplicateFamilySlug
    | ConflictingFamilyId
    | ConflictingFamilySlug

  /** A diagnostic for the 1-based data row `row`. */
  datatype RowError = RowError(row: nat, kind: ErrorKind)

  /** How a run ends when it does not produce output. */
  datatype Failure =
    | SchemaError(missing: set<string>)  // required columns absent: `sys.exit(1)` or a failed `assert`
    | RowErrors(errors: seq<RowError>)    // the scanner flagged rows: `sys.exit(10)`
    | SlugExhausted(base: string)         // `_generate_slug` raised `RuntimeError`
    | MissingFamily(name: string)         // a `KeyError` on the family lookup

  /** The process exit status each failure leads to; an uncaught Python
      exception, like a failed `assert`, exits with status 1. */
  function ExitCode(f: Failure): (code: int)
    ensures code == 10 <==> f.RowErrors?
    ensures !f.RowErrors? ==> code == 1
    ensures code != 0
  {
    match f
    case SchemaError(_) => 1
    case RowErrors(_) => 10
    case SlugExhausted(_) => 1
    case MissingFamily(_) => 1
  }

  /** What the scripts take from outside: `slugify` and a stream of `uuid4()`
      renderings (the i-th call to `str(uuid4())` returns `uuid(i)`). */
  datatype Env = Env(slugify: string -> string, uuid: nat -> string)
}
