/** In-memory tables as the preprocessing stage sees them (pandas data frames),
    the whitespace clean-up of the mapping table and the schema check. */
module Tables {
  import opened Wrappers
  import opened Strings
  import opened Config

  /** One cell: `None` is a missing (NaN) value. */
  type Cell = Option<string>

  /** One row, keyed by column name. */
  type Row = map<string, Cell>

  datatype Frame = Frame(columns: seq<string>, rows: seq<Row>)

  function ColumnSet(t: Frame): set<string> {
    set c | c in t.columns
  }

  /** Every row of a data frame carries exactly the frame's columns. */
  predicate WellFormed(t: Frame) {
    forall i :: 0 <= i < |t.rows| ==> t.rows[i].Keys == ColumnSet(t)
  }

  /** Python's `row.get(key)`: missing keys read as `None`. */
  function GetCell(r: Row, key: string): Cell {
    if key in r then r[key] else None
  }

  // ---------------------------------------------------------------- clean_data

  /** The mapping-table columns whose text is stripped before use. */
  const STRIPPED_COLUMNS: set<string> := {FIELD_ID, CATEGORICAL_VALUE, PROCEDURE_RESULT}

  /** `Series.str.strip()` on one cell: missing cells stay missing. */
  function StripCell(c: Cell): Cell {
    match c
    case None => None
    case Some(s) => Some(Strip(s))
  }

  function CleanRow(r: Row, columns: set<string>): Row {
    map k | k in r :: if k in STRIPPED_COLUMNS && k in columns then StripCell(r[k]) else r[k]
  }

  /** `clean_data`: strips `field_id`, `categorical_value` and `procedure_result`
      where the frame has those columns, and leaves everything else as it was. */
  function CleanData(t: Frame): (r: Frame)
    ensures r.columns == t.columns && |r.rows| == |t.rows|
    ensures forall i :: 0 <= i < |t.rows| ==> r.rows[i].Keys == t.rows[i].Keys
    ensures forall i, k :: 0 <= i < |t.rows| && k in t.rows[i] && (k !in STRIPPED_COLUMNS || k !in t.columns) ==>
              r.rows[i][k] == t.rows[i][k]
    ensures forall i, k :: 0 <= i < |t.rows| && k in t.rows[i] && k in STRIPPED_COLUMNS && k in t.columns ==>
              r.rows[i][k] == StripCell(t.rows[i][k])
  {
    Frame(t.columns, seq(|t.rows|, i requires 0 <= i < |t.rows| => CleanRow(t.rows[i], ColumnSet(t))))
  }

  /** After cleaning, no present cell of a stripped column begins or ends with whitespace. */
  lemma CleanedCellsTrimmed(t: Frame, i: int, k: string)
    requires 0 <= i < |t.rows| && k in t.rows[i] && k in STRIPPED_COLUMNS && k in t.columns
    requires CleanData(t).rows[i][k].Some?
    ensures Trimmed(CleanData(t).rows[i][k].value)
  {
  }

  /** Cleaning twice is the same as cleaning once. */
  lemma CleanDataIdempotent(t: Frame)
    ensures CleanData(CleanData(t)) == CleanData(t)
  {
    var once := CleanData(t);
    var twice := CleanData(once);
    assert ColumnSet(once) == ColumnSet(t);
    forall i | 0 <= i < |t.rows|
      ensures twice.rows[i] == once.rows[i]
    {
      forall k | k in once.rows[i]
        ensures twice.rows[i][k] == once.rows[i][k]
      {
        if k in STRIPPED_COLUMNS && k in t.columns {
          match t.rows[i][k]
          case None =>
          case Some(s) => StripIdempotent(s);
        }
      }
    }
  }

  // ----------------------------------------------------------- validate_inputs

  /** The error `validate_inputs` raises, naming the table and its missing columns. */
  datatype SchemaError = MissingInData(columns: set<string>) | MissingInMapping(columns: set<string>)

  /** Nothing is missing from `have` exactly when it includes all of `required`. */
  lemma NoneMissing(required: set<string>, have: set<string>)
    ensures required - have == {} <==> required <= have
  {
    if !(required <= have) {
      var x :| x in required && x !in have;
      assert x in required - have;
    }
  }

  /** `validate_inputs`: fails exactly when a required column is absent; the data
      table is checked first, and the error names every column missing from it. */
  function ValidateInputs(data: Frame, mapping: Frame): (r: Outcome<SchemaError>)
    ensures r.Pass? <==> REQUIRED_DATA_COLS <= ColumnSet(data) && REQUIRED_MAPPING_COLS <= ColumnSet(mapping)
    ensures !(REQUIRED_DATA_COLS <= ColumnSet(data)) ==>
              r == Fail(MissingInData(REQUIRED_DATA_COLS - ColumnSet(data)))
    ensures REQUIRED_DATA_COLS <= ColumnSet(data) && !(REQUIRED_MAPPING_COLS <= ColumnSet(mapping)) ==>
              r == Fail(MissingInMapping(REQUIRED_MAPPING_COLS - ColumnSet(mapping)))
    ensures r.Fail? ==> r.error.columns != {}
  {
    NoneMissing(REQUIRED_DATA_COLS, ColumnSet(data));
    NoneMissing(REQUIRED_MAPPING_COLS, ColumnSet(mapping));
    var missingData := REQUIRED_DATA_COLS - ColumnSet(data);
    if missingData != {} then Fail(MissingInData(missingData))
    else
      var missingMap := REQUIRED_MAPPING_COLS - ColumnSet(mapping);
      if missingMap != {} then Fail(MissingInMapping(missingMap)) else Pass
  }
}
