/** `build_mapping_indices`: the per-field candidate lists and the
    procedure-result lookup built in one pass over the mapping rows. */
module Indexing {
  import opened Wrappers
  import opened Config
  import opened Tables
  import opened Seqs

  /** Field → (categorical value → ontology term). */
  type ProcIndex = map<Cell, map<string, string>>

  /** `fields` lists the keys of `byField` in insertion order, as a Python dict iterates them. */
  datatype MappingIndex = MappingIndex(fields: seq<Cell>, byField: map<Cell, seq<Row>>, procResult: ProcIndex)

  /** Every row has a `field_id` column (`row['field_id']` would raise otherwise). */
  predicate Keyed(rows: seq<Row>) {
    forall i :: 0 <= i < |rows| ==> FIELD_ID in rows[i]
  }

  function FieldKeys(rows: seq<Row>): (keys: seq<Cell>)
    requires Keyed(rows)
    ensures |keys| == |rows|
    ensures forall i :: 0 <= i < |rows| ==> keys[i] == rows[i][FIELD_ID]
  {
    if |rows| == 0 then [] else FieldKeys(rows[..|rows| - 1]) + [rows[|rows| - 1][FIELD_ID]]
  }

  /** The rows whose `field_id` is `f`, in input order. */
  function CandidatesOf(rows: seq<Row>, f: Cell): (cs: seq<Row>)
    requires Keyed(rows)
    ensures forall k :: 0 <= k < |cs| ==> cs[k] in rows && cs[k][FIELD_ID] == f
  {
    if |rows| == 0 then []
    else
      var last := rows[|rows| - 1];
      CandidatesOf(rows[..|rows| - 1], f) + (if last[FIELD_ID] == f then [last] else [])
  }

  /** The ontology term the last row with field `f` and categorical value `v`
      maps to, when both categorical columns of that row are present. */
  function LastTerm(rows: seq<Row>, f: Cell, v: string): Option<string>
    requires Keyed(rows)
  {
    if |rows| == 0 then None
    else
      var last := rows[|rows| - 1];
      if last[FIELD_ID] == f && GetCell(last, CATEGORICAL_VALUE) == Some(v) && GetCell(last, CATEGORICAL_ONTOLOGY_MAPPING).Some?
      then GetCell(last, CATEGORICAL_ONTOLOGY_MAPPING)
      else LastTerm(rows[..|rows| - 1], f, v)
  }

  /** `proc_result_index.get(f, {}).get(v)`. */
  function ProcLookup(index: ProcIndex, f: Cell, v: string): Option<string> {
    if f in index && v in index[f] then Some(index[f][v]) else None
  }

  const EmptyIndex := MappingIndex([], map[], map[])

  /** One iteration of the indexing loop. */
  function AddRow(idx: MappingIndex, r: Row): MappingIndex
    requires FIELD_ID in r
  {
    var f := r[FIELD_ID];
    var known := f in idx.byField;
    MappingIndex(
      if known then idx.fields else idx.fields + [f],
      idx.byField[f := (if known then idx.byField[f] else []) + [r]],
      match (GetCell(r, CATEGORICAL_VALUE), GetCell(r, CATEGORICAL_ONTOLOGY_MAPPING))
      case (Some(v), Some(term)) =>
        idx.procResult[f := (if f in idx.procResult then idx.procResult[f] else map[])[v := term]]
      case _ => idx.procResult)
  }

  /** `build_mapping_indices`: a left fold of `AddRow` over the rows. */
  function BuildMappingIndices(rows: seq<Row>): MappingIndex
    requires Keyed(rows)
  {
    if |rows| == 0 then EmptyIndex else AddRow(BuildMappingIndices(rows[..|rows| - 1]), rows[|rows| - 1])
  }

  /** Fields are keyed once each, in the order they are first seen, and they are
      exactly the keys of the candidate map. */
  lemma {:induction false} IndexFieldsFirstSeen(rows: seq<Row>)
    requires Keyed(rows)
    ensures BuildMappingIndices(rows).fields == Unique(FieldKeys(rows))
    ensures BuildMappingIndices(rows).byField.Keys == set f | f in BuildMappingIndices(rows).fields
  {
    if |rows| > 0 {
      var init := rows[..|rows| - 1];
      var r := rows[|rows| - 1];
      IndexFieldsFirstSeen(init);
      var keys := FieldKeys(rows);
      assert keys[..|rows| - 1] == FieldKeys(init);
      assert keys[|rows| - 1] == r[FIELD_ID];
      assert r[FIELD_ID] in BuildMappingIndices(init).byField <==> r[FIELD_ID] in FieldKeys(init);
    }
  }

  /** Each mapping row sits in the list of its own field, every list keeping input order. */
  lemma {:induction false} IndexCandidatesInOrder(rows: seq<Row>)
    requires Keyed(rows)
    ensures forall f :: f in BuildMappingIndices(rows).byField ==>
              BuildMappingIndices(rows).byField[f] == CandidatesOf(rows, f)
  {
    if |rows| > 0 {
      var init := rows[..|rows| - 1];
      IndexCandidatesInOrder(init);
      IndexFieldsFirstSeen(init);
      var prev := BuildMappingIndices(init);
      forall f | f !in prev.byField
        ensures CandidatesOf(init, f) == []
      {
        CandidatesOfAbsent(init, f);
      }
    }
  }

  /** A field no row carries has no candidates. */
  lemma {:induction false} CandidatesOfAbsent(rows: seq<Row>, f: Cell)
    requires Keyed(rows)
    requires f !in BuildMappingIndices(rows).byField
    ensures CandidatesOf(rows, f) == []
  {
    if |rows| > 0 {
      CandidatesOfAbsent(rows[..|rows| - 1], f);
    }
  }

  /** The procedure-result index answers every (field, value) query with the term
      of the last row carrying both categorical columns for that pair. */
  lemma {:induction false} IndexProcResultLastWins(rows: seq<Row>)
    requires Keyed(rows)
    ensures forall f, v :: ProcLookup(BuildMappingIndices(rows).procResult, f, v) == LastTerm(rows, f, v)
  {
    if |rows| > 0 {
      IndexProcResultLastWins(rows[..|rows| - 1]);
    }
  }

  /** Total length of the candidate lists of `fields`. */
  function CandidateTotal(fields: seq<Cell>, byField: map<Cell, seq<Row>>): nat {
    if |fields| == 0 then 0
    else
      var f := fields[|fields| - 1];
      CandidateTotal(fields[..|fields| - 1], byField) + (if f in byField then |byField[f]| else 0)
  }

  lemma {:induction false} CandidateTotalOtherKey(fields: seq<Cell>, byField: map<Cell, seq<Row>>, k: Cell, v: seq<Row>)
    requires k !in fields
    ensures CandidateTotal(fields, byField[k := v]) == CandidateTotal(fields, byField)
  {
    if |fields| > 0 {
      CandidateTotalOtherKey(fields[..|fields| - 1], byField, k, v);
    }
  }

  lemma {:induction false} CandidateTotalUpdate(fields: seq<Cell>, byField: map<Cell, seq<Row>>, k: Cell, v: seq<Row>)
    requires Distinct(fields) && k in fields && k in byField
    ensures CandidateTotal(fields, byField[k := v]) == CandidateTotal(fields, byField) - |byField[k]| + |v|
  {
    var init := fields[..|fields| - 1];
    if fields[|fields| - 1] == k {
      assert k !in init;
      CandidateTotalOtherKey(init, byField, k, v);
    } else {
      assert k in init;
      CandidateTotalUpdate(init, byField, k, v);
    }
  }

  /** Adding a row lengthens exactly one candidate list by one. */
  lemma AddRowTotal(prev: MappingIndex, r: Row)
    requires FIELD_ID in r
    requires Distinct(prev.fields)
    requires prev.byField.Keys == set f | f in prev.fields
    ensures CandidateTotal(AddRow(prev, r).fields, AddRow(prev, r).byField) == CandidateTotal(prev.fields, prev.byField) + 1
  {
    var f := r[FIELD_ID];
    var idx := AddRow(prev, r);
    if f in prev.byField {
      assert idx.fields == prev.fields;
      CandidateTotalUpdate(prev.fields, prev.byField, f, prev.byField[f] + [r]);
    } else {
      assert idx.fields == prev.fields + [f];
      assert idx.fields[..|prev.fields|] == prev.fields;
      var none: seq<Row> := [];
      assert none + [r] == [r];
      assert idx.byField == prev.byField[f := [r]];
      assert f !in prev.fields;
      CandidateTotalOtherKey(prev.fields, prev.byField, f, [r]);
      assert CandidateTotal(idx.fields, idx.byField) == CandidateTotal(prev.fields, idx.byField) + 1;
    }
  }

  /** Every mapping row is listed exactly once across all the fields' candidate lists. */
  lemma {:induction false} IndexListsEveryRowOnce(rows: seq<Row>)
    requires Keyed(rows)
    ensures CandidateTotal(BuildMappingIndices(rows).fields, BuildMappingIndices(rows).byField) == |rows|
  {
    if |rows| > 0 {
      var init := rows[..|rows| - 1];
      IndexListsEveryRowOnce(init);
      IndexFieldsFirstSeen(init);
      AddRowTotal(BuildMappingIndices(init), rows[|rows| - 1]);
    }
  }
}
