/** The field resolver and the row expander of `process_data`: every data row is
    joined against the candidate mapping rows of every indexed field. */
module Expansion {
  import opened Wrappers
  import opened Integers
  import opened Config
  import opened Tables
  import opened Indexing
  import opened Seqs

  /** A cell of the normalized output table. `Missing` stands for pandas' NaN and
      for Python's `None` alike: both are written out as an empty CSV cell. */
  datatype Value = Missing | Text(text: string) | Number(number: int)

  type OutRow = map<string, Value>

  function Lift(c: Option<string>): Value {
    match c
    case None => Missing
    case Some(s) => Text(s)
  }

  /** The keys `process_data` overwrites in its copy of a mapping row. */
  const OVERWRITTEN: set<string> := {CASE_ID_COLUMN, FIELD_VALUE, PROCEDURE_RESULT}

  // ----------------------------------------------------------- get_field_value

  /** What `get_field_value` indexes without raising: the mapping row names a
      present field that is a column of the data row, and it has a value type. */
  predicate Resolvable(d: Row, m: Row) {
    FIELD_ID in m && m[FIELD_ID].Some? && m[FIELD_ID].value in d && VALUE_TYPE in m
  }

  function RawValue(d: Row, m: Row): Cell
    requires Resolvable(d, m)
  {
    d[m[FIELD_ID].value]
  }

  /** `get_field_value`; `None` tells the caller to skip the candidate.
      - Boolean: skipped exactly when the raw value is missing, otherwise passed on;
      - Integer: skipped when missing or when `int()` rejects it, otherwise the integer;
      - any other type: the raw value, missing or not, is passed on. */
  function GetFieldValue(d: Row, m: Row): (v: Option<Value>)
    requires Resolvable(d, m)
    ensures v.None? <==>
              || (m[VALUE_TYPE] == Some("Boolean") && RawValue(d, m).None?)
              || (m[VALUE_TYPE] == Some("Integer") && (RawValue(d, m).None? || ParseInt(RawValue(d, m).value).None?))
    ensures m[VALUE_TYPE] == Some("Integer") && v.Some? ==> v == Some(Number(ParseInt(RawValue(d, m).value).value))
    ensures m[VALUE_TYPE] != Some("Integer") && v.Some? ==> v.value == Lift(RawValue(d, m))
  {
    var raw := RawValue(d, m);
    if m[VALUE_TYPE] == Some("Boolean") then
      if raw.None? then None else Some(Lift(raw))
    else if m[VALUE_TYPE] == Some("Integer") then
      if raw.Some? then
        match ParseInt(raw.value)
        case Some(n) => Some(Number(n))
        case None => None
      else None
    else Some(Lift(raw))
  }

  /** An Integer field whose cell holds the decimal text of `n` resolves to `n`,
      and a Boolean or other field passes any present text on unchanged. */
  lemma FieldValueOfDecimal(d: Row, m: Row, n: int)
    requires Resolvable(d, m) && RawValue(d, m) == Some(Decimal(n))
    ensures m[VALUE_TYPE] == Some("Integer") ==> GetFieldValue(d, m) == Some(Number(n))
    ensures m[VALUE_TYPE] != Some("Integer") ==> GetFieldValue(d, m) == Some(Text(Decimal(n)))
  {
    ParseDecimal(n);
  }

  // ------------------------------------------------------ get_procedure_result

  /** The other field a mapping row's `procedure_result` column names. */
  function ReferencedField(m: Row): Cell {
    GetCell(m, PROCEDURE_RESULT)
  }

  /** `get_procedure_result`: the referenced field's data value translated through
      that field's categorical index; `None` when any step of the lookup is missing. */
  function GetProcedureResult(d: Row, m: Row, index: ProcIndex): (t: Option<string>)
    ensures ReferencedField(m).None? ==> t.None?
    ensures ReferencedField(m).Some? && ReferencedField(m).value !in d ==> t.None?
    ensures ReferencedField(m).Some? && ReferencedField(m).value in d && d[ReferencedField(m).value].None? ==> t.None?
    ensures ReferencedField(m).Some? && ReferencedField(m).value in d && d[ReferencedField(m).value].Some? ==>
              t == ProcLookup(index, ReferencedField(m), d[ReferencedField(m).value].value)
  {
    var p := ReferencedField(m);
    if p.None? || p.value !in d then None
    else
      var value := d[p.value];
      if value.None? then None
      else if p !in index then None
      else if value.value in index[p] then Some(index[p][value.value]) else None
  }

  /** The procedure result depends only on the referenced field's column and the
      index: neither the row's own field nor any other column of either row matters. */
  lemma ProcedureResultReadsOnlyReferencedField(d1: Row, d2: Row, m1: Row, m2: Row, index: ProcIndex)
    requires ReferencedField(m1) == ReferencedField(m2)
    requires ReferencedField(m1).Some? ==>
               var p := ReferencedField(m1).value;
               (p in d1 <==> p in d2) && (p in d1 ==> d1[p] == d2[p])
    ensures GetProcedureResult(d1, m1, index) == GetProcedureResult(d2, m2, index)
  {
  }

  // ------------------------------------------------------------- output rows

  /** `o` is the mapping row `m` with only the overwritten keys changed. */
  predicate CopiedFrom(o: OutRow, m: Row) {
    && o.Keys == m.Keys + OVERWRITTEN
    && forall k :: k in m && k !in OVERWRITTEN ==> o[k] == Lift(m[k])
  }

  /** `map_row.copy()` followed by the three assignments. */
  function Normalize(m: Row, caseId: Cell, value: Value, term: Option<string>): (o: OutRow)
    ensures CopiedFrom(o, m)
    ensures o[CASE_ID_COLUMN] == Lift(caseId) && o[FIELD_VALUE] == value && o[PROCEDURE_RESULT] == Lift(term)
  {
    (map k | k in m :: Lift(m[k]))[CASE_ID_COLUMN := Lift(caseId)][FIELD_VALUE := value][PROCEDURE_RESULT := Lift(term)]
  }

  /** The candidate applies: it has no categorical value, or exactly the raw one. */
  predicate CategoryMatches(raw: Cell, m: Row) {
    GetCell(m, CATEGORICAL_VALUE).None? || raw == GetCell(m, CATEGORICAL_VALUE)
  }

  /** One candidate of the innermost loop of `process_data`: an output row exactly
      when the category matches and the field value resolves. */
  function EmitCandidate(d: Row, m: Row, index: ProcIndex): (o: Option<OutRow>)
    requires Resolvable(d, m) && CASE_ID_COLUMN in d
    ensures o.Some? <==> CategoryMatches(RawValue(d, m), m) && GetFieldValue(d, m).Some?
    ensures o.Some? ==> CopiedFrom(o.value, m)
    ensures o.Some? ==>
              && o.value[CASE_ID_COLUMN] == Lift(d[CASE_ID_COLUMN])
              && o.value[FIELD_VALUE] == GetFieldValue(d, m).value
              && o.value[PROCEDURE_RESULT] == Lift(GetProcedureResult(d, m, index))
  {
    if !CategoryMatches(RawValue(d, m), m) then None
    else
      match GetFieldValue(d, m)
      case None => None
      case Some(v) => Some(Normalize(m, d[CASE_ID_COLUMN], v, GetProcedureResult(d, m, index)))
  }

  // -------------------------------------------------------------- expansion

  /** Every candidate of field `f` carries `f` and a value type. */
  predicate CandidatesFor(cands: seq<Row>, f: string) {
    forall k :: 0 <= k < |cands| ==> FIELD_ID in cands[k] && cands[k][FIELD_ID] == Some(f) && VALUE_TYPE in cands[k]
  }

  /** The index can be expanded against rows with these columns: every field is a
      column name and lists candidates for it. */
  predicate Serves(idx: MappingIndex, columns: set<string>) {
    && (forall j :: 0 <= j < |idx.fields| ==> idx.fields[j] in idx.byField)
    && (forall f :: f in idx.byField ==> f.Some? && f.value in columns && CandidatesFor(idx.byField[f], f.value))
  }

  /** The output rows of one field of one data row, in candidate order. */
  function ExpandCandidates(d: Row, f: string, cands: seq<Row>, index: ProcIndex): (out: seq<OutRow>)
    requires f in d && CASE_ID_COLUMN in d && CandidatesFor(cands, f)
    ensures |out| <= |cands|
  {
    if |cands| == 0 then []
    else ExpandCandidates(d, f, cands[..|cands| - 1], index) + Emitted(EmitCandidate(d, cands[|cands| - 1], index))
  }

  /** The output rows of one data row, field after field in index order. */
  function ExpandFields(d: Row, fields: seq<Cell>, idx: MappingIndex): (out: seq<OutRow>)
    requires Serves(idx, d.Keys) && CASE_ID_COLUMN in d
    requires forall j :: 0 <= j < |fields| ==> fields[j] in idx.byField
    ensures |out| <= CandidateTotal(fields, idx.byField)
  {
    if |fields| == 0 then []
    else
      var f := fields[|fields| - 1];
      ExpandFields(d, fields[..|fields| - 1], idx) + ExpandCandidates(d, f.value, idx.byField[f], idx.procResult)
  }

  /** The output rows of a sequence of data rows: data-row-major. */
  function ExpandRows(ds: seq<Row>, idx: MappingIndex, columns: set<string>): (out: seq<OutRow>)
    requires Serves(idx, columns) && CASE_ID_COLUMN in columns
    requires forall i :: 0 <= i < |ds| ==> ds[i].Keys == columns
    ensures |out| <= |ds| * CandidateTotal(idx.fields, idx.byField)
  {
    if |ds| == 0 then []
    else
      var init := ExpandRows(ds[..|ds| - 1], idx, columns);
      var last := ExpandFields(ds[|ds| - 1], idx.fields, idx);
      BoundStep(|init|, |last|, |ds|, CandidateTotal(idx.fields, idx.byField));
      init + last
  }

  /** Expanding one more data row appends that row's output. */
  lemma ExpandRowsSnoc(ds: seq<Row>, i: nat, idx: MappingIndex, columns: set<string>)
    requires Serves(idx, columns) && CASE_ID_COLUMN in columns
    requires forall k :: 0 <= k < |ds| ==> ds[k].Keys == columns
    requires i < |ds|
    ensures ExpandRows(ds[..i + 1], idx, columns)
            == ExpandRows(ds[..i], idx, columns) + ExpandFields(ds[i], idx.fields, idx)
  {
    assert ds[..i + 1][..i] == ds[..i];
  }

  lemma BoundStep(a: nat, b: nat, n: nat, t: nat)
    requires n > 0 && a <= (n - 1) * t && b <= t
    ensures a + b <= n * t
  {
    assert (n - 1) * t + t == n * t;
  }

  // ----------------------------------------------------- output-row provenance

  /** Every output row is a copy of one of `rows`. */
  predicate CopiesOf(out: seq<OutRow>, rows: seq<Row>) {
    forall k :: 0 <= k < |out| ==> IsCopy(out[k], rows)
  }

  predicate IsCopy(o: OutRow, rows: seq<Row>) {
    exists c :: c in rows && CopiedFrom(o, c)
  }

  lemma CopiesOfConcat(a: seq<OutRow>, b: seq<OutRow>, rows: seq<Row>)
    requires CopiesOf(a, rows) && CopiesOf(b, rows)
    ensures CopiesOf(a + b, rows)
  {
    forall k | 0 <= k < |a + b|
      ensures IsCopy((a + b)[k], rows)
    {
      if k < |a| {
        assert (a + b)[k] == a[k];
      } else {
        assert (a + b)[k] == b[k - |a|];
      }
    }
  }

  lemma {:induction false} CandidatesCopied(d: Row, f: string, cands: seq<Row>, index: ProcIndex, rows: seq<Row>)
    requires f in d && CASE_ID_COLUMN in d && CandidatesFor(cands, f)
    requires forall k :: 0 <= k < |cands| ==> cands[k] in rows
    ensures CopiesOf(ExpandCandidates(d, f, cands, index), rows)
  {
    if |cands| > 0 {
      var c := cands[|cands| - 1];
      CandidatesCopied(d, f, cands[..|cands| - 1], index, rows);
      var tail := Emitted(EmitCandidate(d, c, index));
      assert CopiesOf(tail, rows) by {
        if |tail| > 0 {
          assert CopiedFrom(tail[0], c);
          assert IsCopy(tail[0], rows);
        }
      }
      CopiesOfConcat(ExpandCandidates(d, f, cands[..|cands| - 1], index), tail, rows);
    }
  }

  /** Every candidate the index lists is one of `rows`. */
  predicate IndexedFrom(idx: MappingIndex, rows: seq<Row>) {
    forall f, k :: f in idx.byField && 0 <= k < |idx.byField[f]| ==> idx.byField[f][k] in rows
  }

  lemma {:induction false} FieldsCopied(d: Row, fields: seq<Cell>, idx: MappingIndex, rows: seq<Row>)
    requires Serves(idx, d.Keys) && CASE_ID_COLUMN in d
    requires forall j :: 0 <= j < |fields| ==> fields[j] in idx.byField
    requires IndexedFrom(idx, rows)
    ensures CopiesOf(ExpandFields(d, fields, idx), rows)
  {
    if |fields| > 0 {
      var f := fields[|fields| - 1];
      FieldsCopied(d, fields[..|fields| - 1], idx, rows);
      CandidatesCopied(d, f.value, idx.byField[f], idx.procResult, rows);
      CopiesOfConcat(ExpandFields(d, fields[..|fields| - 1], idx),
                     ExpandCandidates(d, f.value, idx.byField[f], idx.procResult), rows);
    }
  }

  /** Each normalized row is a copy of a mapping row the index was built from. */
  lemma {:induction false} RowsCopied(ds: seq<Row>, idx: MappingIndex, columns: set<string>, rows: seq<Row>)
    requires Serves(idx, columns) && CASE_ID_COLUMN in columns
    requires forall i :: 0 <= i < |ds| ==> ds[i].Keys == columns
    requires IndexedFrom(idx, rows)
    ensures CopiesOf(ExpandRows(ds, idx, columns), rows)
  {
    if |ds| > 0 {
      RowsCopied(ds[..|ds| - 1], idx, columns, rows);
      FieldsCopied(ds[|ds| - 1], idx.fields, idx, rows);
      CopiesOfConcat(ExpandRows(ds[..|ds| - 1], idx, columns), ExpandFields(ds[|ds| - 1], idx.fields, idx), rows);
    }
  }
  /** One more candidate adds its own output, if any, after the earlier ones'. */
  lemma ExpandCandidatesStep(d: Row, f: string, cands: seq<Row>, k: nat, index: ProcIndex)
    requires f in d && CASE_ID_COLUMN in d && CandidatesFor(cands, f) && k < |cands|
    ensures CandidatesFor(cands[..k], f) && CandidatesFor(cands[..k + 1], f)
    ensures ExpandCandidates(d, f, cands[..k + 1], index)
         == ExpandCandidates(d, f, cands[..k], index) + Emitted(EmitCandidate(d, cands[k], index))
  {
    assert cands[..k + 1][..k] == cands[..k];
  }

  // ------------------------------------------------------------ composition

  lemma CandidatesForConcat(a: seq<Row>, b: seq<Row>, f: string)
    requires CandidatesFor(a, f) && CandidatesFor(b, f)
    ensures CandidatesFor(a + b, f)
  {
    forall k | 0 <= k < |a + b|
      ensures FIELD_ID in (a + b)[k] && (a + b)[k][FIELD_ID] == Some(f) && VALUE_TYPE in (a + b)[k]
    {
      if k < |a| {
        assert (a + b)[k] == a[k];
      } else {
        assert (a + b)[k] == b[k - |a|];
      }
    }
  }

  /** Candidates are tried independently: a skipped candidate never stops the
      ones after it, so the output of a split list is the two outputs joined. */
  lemma {:induction false} ExpandCandidatesConcat(d: Row, f: string, a: seq<Row>, b: seq<Row>, index: ProcIndex)
    requires f in d && CASE_ID_COLUMN in d && CandidatesFor(a, f) && CandidatesFor(b, f)
    ensures CandidatesFor(a + b, f)
    ensures ExpandCandidates(d, f, a + b, index) == ExpandCandidates(d, f, a, index) + ExpandCandidates(d, f, b, index)
  {
    CandidatesForConcat(a, b, f);
    if |b| == 0 {
      assert a + b == a;
    } else {
      var init := b[..|b| - 1];
      var last := b[|b| - 1];
      assert b == init + [last];
      assert CandidatesFor(init, f);
      ExpandCandidatesConcat(d, f, a, init, index);
      ConcatAssoc(a, init, [last]);
      ExpandCandidatesSnoc(d, f, a + b, a + init, last, index);
      ExpandCandidatesSnoc(d, f, b, init, last, index);
      ConcatAssoc(ExpandCandidates(d, f, a, index), ExpandCandidates(d, f, init, index), Emitted(EmitCandidate(d, last, index)));
    }
  }

  /** A candidate list ending in `last` adds the output of `last`, if any. */
  lemma ExpandCandidatesSnoc(d: Row, f: string, cands: seq<Row>, init: seq<Row>, last: Row, index: ProcIndex)
    requires f in d && CASE_ID_COLUMN in d && CandidatesFor(cands, f) && cands == init + [last]
    ensures CandidatesFor(init, f)
    ensures FIELD_ID in last && last[FIELD_ID] == Some(f) && VALUE_TYPE in last
    ensures ExpandCandidates(d, f, cands, index)
         == ExpandCandidates(d, f, init, index) + Emitted(EmitCandidate(d, last, index))
  {
    assert cands[|cands| - 1] == last;
    assert cands[..|cands| - 1] == init;
  }

  lemma RowsKeyedConcat(ds: seq<Row>, es: seq<Row>, columns: set<string>)
    requires forall i :: 0 <= i < |ds| ==> ds[i].Keys == columns
    requires forall i :: 0 <= i < |es| ==> es[i].Keys == columns
    ensures forall i :: 0 <= i < |ds + es| ==> (ds + es)[i].Keys == columns
  {
    forall i | 0 <= i < |ds + es|
      ensures (ds + es)[i].Keys == columns
    {
      if i < |ds| {
        assert (ds + es)[i] == ds[i];
      } else {
        assert (ds + es)[i] == es[i - |ds|];
      }
    }
  }

  /** Data rows are expanded independently and in order. */
  lemma {:induction false} ExpandRowsConcat(ds: seq<Row>, es: seq<Row>, idx: MappingIndex, columns: set<string>)
    requires Serves(idx, columns) && CASE_ID_COLUMN in columns
    requires forall i :: 0 <= i < |ds| ==> ds[i].Keys == columns
    requires forall i :: 0 <= i < |es| ==> es[i].Keys == columns
    ensures forall i :: 0 <= i < |ds + es| ==> (ds + es)[i].Keys == columns
    ensures ExpandRows(ds + es, idx, columns) == ExpandRows(ds, idx, columns) + ExpandRows(es, idx, columns)
  {
    RowsKeyedConcat(ds, es, columns);
    if |es| == 0 {
      assert ds + es == ds;
    } else {
      var init := es[..|es| - 1];
      var last := es[|es| - 1];
      ExpandRowsConcat(ds, init, idx, columns);
      assert (ds + es)[..|ds + es| - 1] == ds + init;
      assert (ds + es)[|ds + es| - 1] == last;
      var tail := ExpandFields(last, idx.fields, idx);
      assert ExpandRows(ds + es, idx, columns) == ExpandRows(ds + init, idx, columns) + tail;
      assert ExpandRows(es, idx, columns) == ExpandRows(init, idx, columns) + tail;
      ConcatAssoc(ExpandRows(ds, idx, columns), ExpandRows(init, idx, columns), tail);
    }
  }
}
