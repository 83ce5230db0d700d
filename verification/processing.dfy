/** `process_data` and the preprocessing entry point: validate, keep the mapping
    rows whose field is a data column, index them, and expand every data row. */
module Processing {
  import opened Wrappers
  import opened Config
  import opened Tables
  import opened Seqs
  import opened Indexing
  import opened Expansion

  // -------------------------------------------------------------- the filter

  /** `mapping_df['field_id'].isin(data_df.columns)` for one row: a missing
      field id is never one of the column names. */
  predicate Selected(r: Row, columns: set<string>) {
    FIELD_ID in r && r[FIELD_ID].Some? && r[FIELD_ID].value in columns
  }

  /** The mapping rows `process_data` keeps, in their original order. */
  function SelectFields(rows: seq<Row>, columns: set<string>): (kept: seq<Row>)
    ensures |kept| <= |rows|
    ensures forall k :: 0 <= k < |kept| ==> kept[k] in rows && Selected(kept[k], columns)
    ensures forall i :: 0 <= i < |rows| && Selected(rows[i], columns) ==> rows[i] in kept
  {
    if |rows| == 0 then []
    else
      var last := rows[|rows| - 1];
      var kept := SelectFields(rows[..|rows| - 1], columns);
      assert forall i :: 0 <= i < |rows| - 1 ==> rows[i] == rows[..|rows| - 1][i];
      if Selected(last, columns) then kept + [last] else kept
  }

  /** Filtering never reorders nor drops a candidate of a kept field: the
      candidate list of a data column is the same before and after, and the
      list of anything else is empty afterwards. */
  lemma {:induction false} SelectFieldsKeepsCandidates(rows: seq<Row>, columns: set<string>, f: Cell)
    requires Keyed(rows)
    ensures Keyed(SelectFields(rows, columns))
    ensures f.Some? && f.value in columns ==> CandidatesOf(SelectFields(rows, columns), f) == CandidatesOf(rows, f)
    ensures !(f.Some? && f.value in columns) ==> CandidatesOf(SelectFields(rows, columns), f) == []
  {
    if |rows| > 0 {
      var init := rows[..|rows| - 1];
      var last := rows[|rows| - 1];
      SelectFieldsKeepsCandidates(init, columns, f);
      var kept := SelectFields(init, columns);
      if Selected(last, columns) {
        assert SelectFields(rows, columns) == kept + [last];
        assert (kept + [last])[..|kept|] == kept;
      } else {
        assert SelectFields(rows, columns) == kept;
      }
    }
  }

  /** The field ids of `keys` that name a column, in order and with repeats. */
  function ColumnKeys(keys: seq<Cell>, columns: set<string>): (ks: seq<Cell>)
    ensures |ks| <= |keys|
    ensures forall k :: 0 <= k < |ks| ==> ks[k] in keys && ks[k].Some? && ks[k].value in columns
  {
    if |keys| == 0 then []
    else
      var f := keys[|keys| - 1];
      var init := keys[..|keys| - 1];
      assert forall x :: x in init ==> x in keys;
      ColumnKeys(init, columns) + (if f.Some? && f.value in columns then [f] else [])
  }

  /** Filtering keeps the field ids of the data columns in their original order,
      repeats included, and drops every other one. With the unchanged candidate
      lists of `SelectFieldsKeepsCandidates` this fixes the kept rows entirely. */
  lemma {:induction false} SelectFieldsKeys(rows: seq<Row>, columns: set<string>)
    requires Keyed(rows)
    ensures Keyed(SelectFields(rows, columns))
    ensures FieldKeys(SelectFields(rows, columns)) == ColumnKeys(FieldKeys(rows), columns)
  {
    if |rows| > 0 {
      var init := rows[..|rows| - 1];
      var last := rows[|rows| - 1];
      SelectFieldsKeys(init, columns);
      var kept := SelectFields(init, columns);
      assert FieldKeys(rows)[..|rows| - 1] == FieldKeys(init);
      if Selected(last, columns) {
        assert SelectFields(rows, columns) == kept + [last];
        assert (kept + [last])[..|kept|] == kept;
      } else {
        assert SelectFields(rows, columns) == kept;
      }
    }
  }

  /** `process_data` visits the fields of the data columns in the order the
      mapping table first mentions them. */
  lemma SelectedFieldsOrder(rows: seq<Row>, columns: set<string>)
    requires Keyed(rows)
    ensures Keyed(SelectFields(rows, columns))
    ensures BuildMappingIndices(SelectFields(rows, columns)).fields == Unique(ColumnKeys(FieldKeys(rows), columns))
  {
    SelectFieldsKeys(rows, columns);
    IndexFieldsFirstSeen(SelectFields(rows, columns));
  }

  // ------------------------------------------------------ the filtered index

  /** Every mapping row has the columns the expansion reads. */
  predicate MappingRowsTyped(rows: seq<Row>) {
    forall i :: 0 <= i < |rows| ==> FIELD_ID in rows[i] && VALUE_TYPE in rows[i]
  }

  /** Every field the index of the kept rows lists is a column name. */
  lemma KeptFieldsAreColumns(rows: seq<Row>, columns: set<string>)
    requires forall k :: 0 <= k < |rows| ==> Selected(rows[k], columns)
    ensures Keyed(rows)
    ensures forall f :: f in BuildMappingIndices(rows).byField ==> f.Some? && f.value in columns
  {
    IndexFieldsFirstSeen(rows);
    forall f | f in BuildMappingIndices(rows).byField
      ensures f.Some? && f.value in columns
    {
      assert f in Unique(FieldKeys(rows));
      SelectedKey(rows, columns, f);
    }
  }

  /** A field id of rows that all passed the filter is a column name. */
  lemma SelectedKey(rows: seq<Row>, columns: set<string>, f: Cell)
    requires forall k :: 0 <= k < |rows| ==> Selected(rows[k], columns)
    requires Keyed(rows) && f in FieldKeys(rows)
    ensures f.Some? && f.value in columns
  {
    var j :| 0 <= j < |rows| && FieldKeys(rows)[j] == f;
    assert Selected(rows[j], columns);
  }

  /** One entry of a candidate list of the kept rows' index: a typed mapping row
      of that list's field. */
  lemma KeptCandidateTyped(kept: seq<Row>, rows: seq<Row>, columns: set<string>, f: Cell, k: nat)
    requires MappingRowsTyped(rows)
    requires forall j :: 0 <= j < |kept| ==> kept[j] in rows && Selected(kept[j], columns)
    requires Keyed(kept) && f in BuildMappingIndices(kept).byField
    requires k < |BuildMappingIndices(kept).byField[f]|
    ensures var c := BuildMappingIndices(kept).byField[f][k];
            c in rows && FIELD_ID in c && c[FIELD_ID] == f && VALUE_TYPE in c
  {
    IndexCandidatesInOrder(kept);
    var c := CandidatesOf(kept, f);
    assert c[k] in kept && c[k][FIELD_ID] == f;
    var j :| 0 <= j < |kept| && kept[j] == c[k];
    var i :| 0 <= i < |rows| && rows[i] == kept[j];
    assert VALUE_TYPE in rows[i];
  }

  /** Each candidate list of the kept rows' index holds typed rows of its own field. */
  lemma KeptCandidatesTyped(kept: seq<Row>, rows: seq<Row>, columns: set<string>)
    requires MappingRowsTyped(rows)
    requires forall k :: 0 <= k < |kept| ==> kept[k] in rows && Selected(kept[k], columns)
    ensures Keyed(kept)
    ensures forall f :: f in BuildMappingIndices(kept).byField && f.Some? ==> CandidatesFor(BuildMappingIndices(kept).byField[f], f.value)
    ensures IndexedFrom(BuildMappingIndices(kept), rows)
  {
    assert Keyed(kept);
    var idx := BuildMappingIndices(kept);
    forall f | f in idx.byField && f.Some?
      ensures CandidatesFor(idx.byField[f], f.value)
    {
      forall k | 0 <= k < |idx.byField[f]|
        ensures FIELD_ID in idx.byField[f][k] && idx.byField[f][k][FIELD_ID] == Some(f.value) && VALUE_TYPE in idx.byField[f][k]
      {
        KeptCandidateTyped(kept, rows, columns, f, k);
      }
    }
    forall f, k | f in idx.byField && 0 <= k < |idx.byField[f]|
      ensures idx.byField[f][k] in rows
    {
      KeptCandidateTyped(kept, rows, columns, f, k);
    }
  }

  /** The index of the kept rows can drive the expansion of data rows with these
      columns, and it lists nothing but mapping rows. */
  lemma IndexServes(rows: seq<Row>, columns: set<string>)
    requires MappingRowsTyped(rows)
    ensures Keyed(SelectFields(rows, columns))
    ensures Serves(BuildMappingIndices(SelectFields(rows, columns)), columns)
    ensures IndexedFrom(BuildMappingIndices(SelectFields(rows, columns)), rows)
  {
    var kept := SelectFields(rows, columns);
    KeptFieldsAreColumns(kept, columns);
    KeptCandidatesTyped(kept, rows, columns);
    IndexFieldsFirstSeen(kept);
  }

  // ------------------------------------------------------------ process_data

  /** The normalized rows `process_data` returns for validated, well-formed tables:
      at most one per (data row, kept mapping row) pair, each a copy of a mapping row. */
  function Preprocessed(data: Frame, mapping: Frame): (out: seq<OutRow>)
    requires WellFormed(data) && WellFormed(mapping) && ValidateInputs(data, mapping).Pass?
    ensures |out| <= |data.rows| * |SelectFields(mapping.rows, ColumnSet(data))|
    ensures CopiesOf(out, mapping.rows)
  {
    var columns := ColumnSet(data);
    var kept := SelectFields(mapping.rows, columns);
    IndexServes(mapping.rows, columns);
    var idx := BuildMappingIndices(kept);
    IndexListsEveryRowOnce(kept);
    RowsCopied(data.rows, idx, columns, mapping.rows);
    ExpandRows(data.rows, idx, columns)
  }

  /** The innermost loop of `process_data`: the candidates of field `f` tried
      one after the other against data row `d`. */
  method ProcessCandidates(d: Row, f: string, cands: seq<Row>, index: ProcIndex) returns (out: seq<OutRow>)
    requires f in d && CASE_ID_COLUMN in d && CandidatesFor(cands, f)
    ensures out == ExpandCandidates(d, f, cands, index)
  {
    var raw := d[f];
    out := [];
    var k := 0;
    while k < |cands|
      invariant 0 <= k <= |cands|
      invariant out == ExpandCandidates(d, f, cands[..k], index)
    {
      var m := cands[k];
      ExpandCandidatesStep(d, f, cands, k, index);
      var categorical := GetCell(m, CATEGORICAL_VALUE);
      if categorical.None? || raw == categorical {
        var value := GetFieldValue(d, m);
        if value.Some? {
          var term := GetProcedureResult(d, m, index);
          out := out + [Normalize(m, d[CASE_ID_COLUMN], value.value, term)];
        }
      }
      k := k + 1;
    }
    assert cands[..k] == cands;
  }

  /** The middle loop: every indexed field of data row `d`, in index order. */
  method ProcessFields(d: Row, idx: MappingIndex) returns (out: seq<OutRow>)
    requires Serves(idx, d.Keys) && CASE_ID_COLUMN in d
    ensures out == ExpandFields(d, idx.fields, idx)
  {
    out := [];
    var j := 0;
    while j < |idx.fields|
      invariant 0 <= j <= |idx.fields|
      invariant out == ExpandFields(d, idx.fields[..j], idx)
    {
      var f := idx.fields[j];
      var rows := ProcessCandidates(d, f.value, idx.byField[f], idx.procResult);
      out := out + rows;
      assert idx.fields[..j + 1][..j] == idx.fields[..j];
      j := j + 1;
    }
    assert idx.fields[..j] == idx.fields;
  }

  /** `process_data`: the schema error of `validate_inputs`, or the normalized rows,
      computed by the nested loops of the source. */
  method ProcessData(data: Frame, mapping: Frame) returns (result: Result<seq<OutRow>, SchemaError>)
    requires WellFormed(data) && WellFormed(mapping)
    ensures result.Err? <==> ValidateInputs(data, mapping).Fail?
    ensures result.Err? ==> result.error == ValidateInputs(data, mapping).error
    ensures result.Ok? ==> ValidateInputs(data, mapping).Pass? && result.value == Preprocessed(data, mapping)
  {
    var check := ValidateInputs(data, mapping);
    if check.Fail? {
      return Err(check.error);
    }
    var columns := ColumnSet(data);
    var kept := SelectFields(mapping.rows, columns);
    IndexServes(mapping.rows, columns);
    var idx := BuildMappingIndices(kept);
    var results: seq<OutRow> := [];
    var i := 0;
    while i < |data.rows|
      invariant 0 <= i <= |data.rows|
      invariant results == ExpandRows(data.rows[..i], idx, columns)
    {
      var rows := ProcessFields(data.rows[i], idx);
      ExpandRowsSnoc(data.rows, i, idx, columns);
      results := results + rows;
      i := i + 1;
    }
    assert data.rows[..i] == data.rows;
    PreprocessedExpands(data, mapping);
    return Ok(results);
  }

  /** The normalized rows are the expansion of every data row against the index
      of the kept mapping rows. */
  lemma PreprocessedExpands(data: Frame, mapping: Frame)
    requires WellFormed(data) && WellFormed(mapping) && ValidateInputs(data, mapping).Pass?
    ensures Keyed(SelectFields(mapping.rows, ColumnSet(data)))
    ensures Serves(BuildMappingIndices(SelectFields(mapping.rows, ColumnSet(data))), ColumnSet(data))
    ensures CASE_ID_COLUMN in ColumnSet(data)
    ensures forall k :: 0 <= k < |data.rows| ==> data.rows[k].Keys == ColumnSet(data)
    ensures Preprocessed(data, mapping)
            == ExpandRows(data.rows, BuildMappingIndices(SelectFields(mapping.rows, ColumnSet(data))), ColumnSet(data))
  {
    IndexServes(mapping.rows, ColumnSet(data));
  }

  /** The command-line flow: the mapping table is cleaned before processing, and
      cleaning never changes which columns are present. */
  method Preprocess(data: Frame, mapping: Frame) returns (result: Result<seq<OutRow>, SchemaError>)
    requires WellFormed(data) && WellFormed(mapping)
    ensures WellFormed(CleanData(mapping))
    ensures result.Err? <==> ValidateInputs(data, mapping).Fail?
    ensures result.Ok? ==> result.value == Preprocessed(data, CleanData(mapping))
  {
    var cleaned := CleanData(mapping);
    assert ColumnSet(cleaned) == ColumnSet(mapping);
    result := ProcessData(data, cleaned);
  }
}
