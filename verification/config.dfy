/** Column names shared by both stages and the required-column sets the
    preprocessing stage validates against. */
module Config {

  const CASE_ID_COLUMN: string := "case_id"

  const FIELD_ID: string := "field_id"
  const VALUE_TYPE: string := "value_type"
  const CATEGORICAL_VALUE: string := "categorical_value"
  const CATEGORICAL_ONTOLOGY_MAPPING: string := "categorical_ontology_mapping"
  const PROCEDURE_RESULT: string := "procedure_result"
  const FIELD_VALUE: string := "field_value"

  const REQUIRED_MAPPING_COLS: set<string> :=
    {FIELD_ID, VALUE_TYPE, CATEGORICAL_VALUE, CATEGORICAL_ONTOLOGY_MAPPING, PROCEDURE_RESULT}

  const REQUIRED_DATA_COLS: set<string> := {CASE_ID_COLUMN}
}
