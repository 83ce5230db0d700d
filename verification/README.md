# A Dafny model of the clinical-data preprocessor and YARRRML rule compiler

The pipeline turns clinical case tables and a field-mapping table into YARRRML rules
for an RDF materializer. This project models the two Python stages at its core.

- **Preprocessing** (`dataPreprocessing.py`). The mapping table is cleaned and both
  tables are checked for their required columns. The mapping rows whose field is a
  column of the data table are indexed: a candidate list per field, plus a
  procedure-result index from (field, categorical value) to an ontology term. Every
  data row is then joined against the candidates of every indexed field. Each
  matching candidate yields one normalized row: a copy of the mapping row carrying
  the case id, the resolved field value and the resolved procedure-result term.
- **Rule generation** (`generateRules.py`). Each row of the rule CSV is read. Rows
  whose stripped field id was already seen are skipped. The row's pattern type selects
  a fixed list of block generators, and the YARRRML blocks they produce, joined by
  newlines, form the row's rule. The document written is the template followed by
  the non-empty rules, joined by newlines.

Tables are modelled as sequences of rows, each row a map from column name to an
optional text cell. `None` stands for a missing (NaN) cell. YARRRML blocks are
structural values (`Blocks.Block`): a name, a source, a subject and predicate-object
clauses. The properties are stated about these values; `Blocks.Render` gives their
text.

Modules, following the program's structure:

| file | module | models |
|---|---|---|
| `config.dfy` | `Config` | the column names and required-column sets of `config.py` |
| `tables.dfy` | `Tables` | data frames, `clean_data`, `validate_inputs` |
| `indexing.dfy` | `Indexing` | `build_mapping_indices` |
| `expansion.dfy` | `Expansion` | `get_field_value`, `get_procedure_result`, the body of the `process_data` loops |
| `processing.dfy` | `Processing` | the field filter, the loops of `process_data`, the command-line flow |
| `blocks.dfy` | `Blocks` | YARRRML blocks, their predicates and their text |
| `rules.dfy` | `Rules` | `extract_last_part` and the six block generators |
| `generation.dfy` | `Generation` | `load_pattern_handlers` and `generate_rule` |
| `assembly.dfy` | `Assembly` | the de-duplicating loop of `generate_rules` and the join of `write_output` |
| `strings.dfy`, `integers.dfy`, `seqs.dfy`, `wrappers.dfy` | | Python's `str.strip`, `int()`, `str.capitalize`, `in`, `split(...)[-1]`, `join`, and first-seen de-duplication |

Some behaviours of the code are easy to misread; the model follows the code:

- `get_procedure_result` gives nothing both when the referenced column is absent from
  the data row and when its cell there is missing (dataPreprocessing.py:87-93).
- A Boolean row always gets a `scdm:representsProcedure` clause built from
  `procedure` (generateRules.py:225-236). The yes/no test is made on the
  `field_value` column, not on the categorical value (generateRules.py:238).
- The clinical situation statement's subject is written with the placeholders
  `$(ontology_mapping)_$(field_id)`. The other statements substitute the row's values
  (generateRules.py:113).
- Only the mapping table is cleaned before processing (dataPreprocessing.py:189);
  the data table is used as read.
- `int()` on an Integer cell (dataPreprocessing.py:75) skips less whitespace than
  `str.strip()`: the ASCII separators U+001C to U+001F around the digits make it
  fail, and the candidate is skipped. `Integers.StripInt` models that padding.

## Model

| member | source | states |
|---|---|---|
| Tables.CleanData | upload/python_files/dataPreprocessing.py:10-17 | columns and row count are kept and every row keeps its keys; cells of `field_id`, `categorical_value` and `procedure_result` are stripped when the frame has that column; every other cell is unchanged |
| Tables.CleanedCellsTrimmed | upload/python_files/dataPreprocessing.py:10-17 | after cleaning, no present cell of the three cleaned columns has leading or trailing whitespace |
| Tables.CleanDataIdempotent | upload/python_files/dataPreprocessing.py:10-17 | cleaning an already cleaned table changes nothing |
| Tables.ValidateInputs | upload/python_files/dataPreprocessing.py:21-31 | passes exactly when the data table has `case_id` and the mapping table has all five required columns; the data table is checked first; the error names exactly the missing columns of the failing table, and there is at least one |
| Indexing.BuildMappingIndices | upload/python_files/dataPreprocessing.py:35-59 | the one pass over the mapping rows; its partner lemmas `Indexing.IndexFieldsFirstSeen`, `Indexing.IndexCandidatesInOrder`, `Indexing.IndexProcResultLastWins` and `Indexing.IndexListsEveryRowOnce` state the index it builds |
| Indexing.IndexFieldsFirstSeen | upload/python_files/dataPreprocessing.py:44-51 | the indexed fields are the distinct `field_id` values in first-seen order (dict insertion order), and they are exactly the keys of the candidate map |
| Indexing.IndexCandidatesInOrder | upload/python_files/dataPreprocessing.py:47-51 | each field's candidate list is the sub-sequence of mapping rows with that `field_id`, in input order |
| Indexing.CandidatesOfAbsent | upload/python_files/dataPreprocessing.py:47-51 | a field that is not a key of the candidate map has no mapping row |
| Indexing.IndexProcResultLastWins | upload/python_files/dataPreprocessing.py:53-57 | a lookup of (field, value) in the procedure-result index gives the term of the last mapping row with that field and categorical value whose two categorical columns are both present, and nothing when there is no such row |
| Indexing.IndexListsEveryRowOnce | upload/python_files/dataPreprocessing.py:47-51 | the candidate lists together hold exactly as many entries as there are mapping rows |
| Expansion.GetFieldValue | upload/python_files/dataPreprocessing.py:62-80 | a candidate is skipped exactly for a missing Boolean value, or for an Integer value that is missing or that `int()` rejects; an Integer gives the parsed number; any other type passes the raw cell on, missing or not |
| Expansion.FieldValueOfDecimal | upload/python_files/dataPreprocessing.py:72-80 | an Integer field holding the decimal text of `n` resolves to `n`; other types pass that text on unchanged |
| Integers.ParseDecimal | upload/python_files/dataPreprocessing.py:74-75 | `int()` parses the decimal text of every integer, negative ones included, back to that integer |
| Integers.ParseInt | upload/python_files/dataPreprocessing.py:74-77 | `int()` accepts a text exactly when, once the whitespace `int()` skips is removed from both ends (every `isspace()` character except the ASCII separators U+001C to U+001F), it is digit groups (ASCII digits, single underscores only between two digits) with at most one leading sign; the value is that of the digits with the underscores ignored, negated after a minus sign |
| Integers.ParseIntSigned | upload/python_files/dataPreprocessing.py:74-75 | surrounding whitespace and a plus sign are accepted, and a minus sign with a leading zero gives the negative number |
| Integers.ParseIntUnderscore | upload/python_files/dataPreprocessing.py:74-75 | an underscore between digits is ignored in the value |
| Integers.ParseIntRejectsOuterUnderscore | upload/python_files/dataPreprocessing.py:74-77 | an underscore at either end of the digits makes `int()` fail |
| Integers.ParseIntRejectsDoubleUnderscore | upload/python_files/dataPreprocessing.py:74-77 | two underscores in a row make `int()` fail |
| Integers.ParseIntSeparators | upload/python_files/dataPreprocessing.py:74-77 | an ASCII separator (U+001C to U+001F) before or after the digits makes `int()` fail, though `strip()` would remove it |
| Integers.ParseIntUnicodeSpace | upload/python_files/dataPreprocessing.py:74-75 | non-ASCII whitespace (no-break space, ideographic space) around the digits is skipped |
| Integers.StripIntIsStrip | upload/python_files/dataPreprocessing.py:74-75 | on text without the four ASCII separators, the padding `int()` skips is exactly what `strip()` removes |
| Integers.ParseIntRejectsEmpty | upload/python_files/dataPreprocessing.py:74-77 | empty text, and a sign with no digits, make `int()` fail |
| Expansion.GetProcedureResult | upload/python_files/dataPreprocessing.py:83-99 | nothing when the mapping row names no referenced field, when the data row lacks that column, or when its value there is missing; otherwise the procedure-result index's entry for that field and value |
| Expansion.ProcedureResultReadsOnlyReferencedField | upload/python_files/dataPreprocessing.py:83-99 | two lookups agree whenever they name the same referenced field and the data rows agree on that one column |
| Expansion.Normalize | upload/python_files/dataPreprocessing.py:142-145 | the output row is the mapping row with exactly `case_id`, `field_value` and `procedure_result` set to the given values and every other key copied |
| Expansion.EmitCandidate | upload/python_files/dataPreprocessing.py:127-147 | a candidate yields a row exactly when it has no categorical value or the raw value equals it, and the field value resolves; that row is a copy of the candidate with the case id, the resolved value and the resolved term |
| Expansion.ExpandCandidatesConcat | upload/python_files/dataPreprocessing.py:126-147 | trying two candidate lists one after the other gives the outputs of the first followed by those of the second |
| Expansion.ExpandRowsConcat | upload/python_files/dataPreprocessing.py:119-147 | expanding two batches of data rows gives the first batch's output followed by the second's |
| Expansion.RowsCopied | upload/python_files/dataPreprocessing.py:119-147 | every output row is a copy of some mapping row, changed only in the three overwritten columns |
| Expansion.ExpandRows | upload/python_files/dataPreprocessing.py:119-147 | there are at most as many output rows as (data row, candidate) pairs |
| Processing.SelectFields | upload/python_files/dataPreprocessing.py:111 | keeps exactly the mapping rows whose `field_id` is present and names a data column, and no more rows than it was given |
| Processing.SelectFieldsKeys | upload/python_files/dataPreprocessing.py:111 | the kept rows' field ids are the input's field ids filtered to present data-column names, in input order |
| Processing.SelectedFieldsOrder | upload/python_files/dataPreprocessing.py:111-122 | the fields the processing loop visits are the distinct data-column field ids of the mapping table, in first-seen order |
| Processing.SelectFieldsKeepsCandidates | upload/python_files/dataPreprocessing.py:111-114 | filtering keeps each data column's candidate list unchanged and empties the list of every other field |
| Processing.IndexServes | upload/python_files/dataPreprocessing.py:111-114 | the index of the kept rows lists only data columns, and for each one only typed mapping rows of that field |
| Processing.Preprocessed | upload/python_files/dataPreprocessing.py:105-149 | for validated tables the normalized rows number at most (data rows × kept mapping rows), and each is a copy of a mapping row |
| Processing.ProcessCandidates | upload/python_files/dataPreprocessing.py:126-147 | the innermost loop produces the outputs of the candidates in list order |
| Processing.ProcessFields | upload/python_files/dataPreprocessing.py:122-147 | the middle loop produces, field by field in index order, the outputs of each field's candidates |
| Processing.ProcessData | upload/python_files/dataPreprocessing.py:105-149 | fails exactly when validation fails, with validation's error; otherwise returns the expansion of every data row in order |
| Processing.Preprocess | upload/python_files/dataPreprocessing.py:188-192 | the mapping table is cleaned first; cleaning keeps its columns, so validation fails exactly when it would on the raw tables |
| Strings.StripIdempotent | upload/python_files/dataPreprocessing.py:12 | stripping a stripped text changes nothing |
| Strings.StripPadded | upload/python_files/generateRules.py:314 | stripping a non-empty trimmed text padded with whitespace on both sides gives that text back |
| Rules.ExtractLastPart | upload/python_files/generateRules.py:307-309 | the last part is no longer than the IRI; `Rules.ExtractLastPartSuffix` and `Rules.LocalNameRoundTrip` state which suffix it is |
| Rules.ExtractLastPartSuffix | upload/python_files/generateRules.py:307-309 | the result is a suffix of the IRI with no `#` in it (and no `/` when the IRI has no `#`), and it is preceded by the separator that was split on |
| Rules.LocalNameRoundTrip | upload/python_files/generateRules.py:307-309 | splitting `namespace#name`, or `namespace/name` when the namespace has no `#`, gives `name` back |
| Rules.ObservationResultStatementBlock | upload/python_files/generateRules.py:7-46 | the observation statement reads the given CSV source and has the subject `base:ObservationResultSt_<ontology>_<field>_$(case_id)` |
| Rules.ObservationStatementLinks | upload/python_files/generateRules.py:19-44 | the statement is the result of exactly the procedure named after the last part of the source procedure; it links the field's primitive value, and nothing else, as its observable value exactly when the type is not Boolean |
| Rules.ObservationValueAbsent | upload/python_files/generateRules.py:43-44 | a Boolean row's statement has no `scdm:hasObservableValue` clause |
| Rules.ProcedureBlock | upload/python_files/generateRules.py:48-72 | there is no procedure block exactly when the source procedure is blank; otherwise its subject is the procedure IRI the statements link to, and its only type is the full source procedure IRI |
| Rules.XsdDatatypeCases | upload/python_files/generateRules.py:78-90 | every value type gets one of the five XSD datatypes, and a type other than `xsd:string` exactly for integer, float, datetime and boolean in any letter case |
| Rules.XsdDatatypeIgnoresCase | upload/python_files/generateRules.py:78-90 | spellings of a value type that differ only in letter case get the same datatype |
| Rules.ObservationResultBlock | upload/python_files/generateRules.py:75-101 | the primitive-value block's subject is the IRI the statement links to, and its only value is `$(field_value)` typed with the row's XSD datatype |
| Rules.ClinicalSituationStatementBlock | upload/python_files/generateRules.py:103-158 | the situation statement reads the given CSV source and has the placeholder subject `base:ClinicalSituationSt_$(ontology_mapping)_$(field_id)_$(case_id)`; `Rules.SituationStatementLinks` states its clauses |
| Rules.SituationStatementLinks | upload/python_files/generateRules.py:103-158 | the situation statement is the result of the row's procedure; it represents the categorical term for a categorical row that has one and the finding otherwise, and nothing else; it carries an `extract_last_part` result link exactly when the row's stripped `procedure_result` cell is not blank |
| Rules.RepresentsProcedureColumnCases | upload/python_files/generateRules.py:225-259 | the procedure statement represents the `procedure` column exactly for Boolean rows and for yes/no field values in any letter case; it represents the categorical term exactly otherwise, when there is one and the procedure is not one of the four context names |
| Rules.ClinicalProcedureStatementBlock | upload/python_files/generateRules.py:161-260 | the procedure statement reads the given CSV source and its subject is the row's procedure-statement IRI; `Rules.ProcedureStatementLinks` and `Rules.RepresentsProcedureColumnCases` state its clauses |
| Rules.ProcedureStatementLinks | upload/python_files/generateRules.py:161-260 | the procedure statement is the result of the row's procedure; it has one `scdm:representsProcedure` clause, built from the chosen column, exactly when a column is chosen, and none otherwise |
| Rules.RepresentedProcedureBlock | upload/python_files/generateRules.py:263-304 | there is no represented-procedure block exactly when the categorical term is blank and `http` occurs nowhere in the procedure; otherwise its subject is computed per CSV row |
| Generation.ParsePattern | upload/python_files/generateRules.py:314-316 | a pattern is recognised exactly when the stripped cell is its label |
| Generation.ParsePatternLabel | upload/python_files/generateRules.py:314-316 | every pattern label, padded with whitespace on either side, is recognised as that pattern |
| Generation.Generators | upload/python_files/generateRules.py:361-380 | every pattern has at least one generator; the `BlocksListed` lemmas below state which blocks the list yields, in order |
| Generation.ObservationBlocksListed | upload/python_files/generateRules.py:366-370 | an observation row yields its statement, then its procedure block when there is one, then its primitive-value block |
| Generation.SituationBlocksListed | upload/python_files/generateRules.py:371-374 | a situation row yields its statement, then its procedure block when there is one |
| Generation.ProcedureBlocksListed | upload/python_files/generateRules.py:375-379 | a procedure row yields its statement, then its represented-procedure block and its procedure block when each exists |
| Generation.ProcedureLinkResolves | upload/python_files/generateRules.py:312-324 | in every pattern the statement's procedure link is defined by a block of the same rule exactly when the source procedure is not blank |
| Generation.ObservableValueResolves | upload/python_files/generateRules.py:366-370 | a non-Boolean observation statement links exactly one primitive value, and a block of the same rule defines it |
| Generation.BlockNamesDistinct | upload/python_files/generateRules.py:361-380 | the blocks of one rule have pairwise different names |
| Generation.GenerateRule | upload/python_files/generateRules.py:312-324 | the rule is empty exactly for an unknown pattern type; for a known one it is the rule of the stripped row |
| Generation.RuleText | upload/python_files/generateRules.py:316-321 | a known pattern's rule opens with the text of its statement block |
| Generation.FirstGeneratorProduces | upload/python_files/generateRules.py:316-321 | every pattern's first generator always produces a block, and it is the rule's statement |
| Assembly.FirstOccurrences | upload/python_files/generateRules.py:393-403 | the rows kept by the duplicate skip are no more than the rows read; `Assembly.FirstOccurrencesKeys` and `Assembly.FirstOccurrenceWins` state which ones |
| Assembly.FirstOccurrencesKeys | upload/python_files/generateRules.py:393-403 | the kept rows' stripped field ids are the distinct ids of the input, in first-seen order |
| Assembly.FirstOccurrenceWins | upload/python_files/generateRules.py:399-403 | every kept row is the first input row with its stripped field id |
| Assembly.DuplicateSkipped | upload/python_files/generateRules.py:400-402 | a later row with the same stripped field id is dropped |
| Assembly.DistinctKept | upload/python_files/generateRules.py:399-403 | rows with different field ids are both kept, in order |
| Assembly.UnknownPatternShadows | upload/python_files/generateRules.py:399-408 | when the first row of a field id has an unknown pattern type, no rule is produced for that field, even when a later row for the same field has a known pattern |
| Assembly.CollectedOfKnown | upload/python_files/generateRules.py:406-408 | when only rows of unknown patterns compile to empty text, the collected rules are the texts of the known rows, in order |
| Assembly.CollectedKnown | upload/python_files/generateRules.py:406-408 | with the real compiler, the collected rules are the rules of the rows with a known pattern, in order |
| Assembly.GenerateRules | upload/python_files/generateRules.py:383-410 | the loop returns the non-empty rules of the first row of each stripped field id, in reading order |
| Assembly.Document | upload/python_files/generateRules.py:421 | the document opens with the template and continues with the rules joined by newlines: the template alone when there are no rules, the template and the rule when there is one, and otherwise as long as the template plus the rules plus one newline between each two |
| Assembly.DocumentRuleAt | upload/python_files/generateRules.py:421 | each rule sits in the document after the template, the earlier rules and one newline per earlier rule, and a newline follows every rule but the last |
| Assembly.DocumentAppend | upload/python_files/generateRules.py:421 | one more rule extends the document by a newline and that rule |
| Assembly.Compile | upload/python_files/generateRules.py:383-421 | the written document opens with the template, and is the template alone for a CSV without rows; `Assembly.CompileDocument` states the rest |
| Assembly.CompileDocument | upload/python_files/generateRules.py:383-421 | the written document is the template followed by the rules of the first row of each field id whose pattern is known |

## Left out

- Reading and writing files, `argparse`, `main`'s path checks and `sys.exit` paths,
  and every `print`, including the unknown-pattern diagnostic and the `field:` trace.
  They are I/O.
- The template is a parameter of `Assembly.Document`. `template_manager` and
  `load_template` are not part of this model.
- `initiate.py`, `TEST_file_compare.py` and the path constants of `config.py` are
  not part of this model.
- pandas type inference. Every cell is text or missing, so numeric cells, `int()` of a
  float and comparisons between numbers and text are not modelled.
- Python keys NaN field ids by object identity. The model groups them under one
  missing key. `process_data` drops such rows before indexing, so its output is
  unaffected.
- Integers.ParseInt: has no limit on the number of digits. CPython 3.11 and later,
  and the 3.7.14, 3.8.14, 3.9.14 and 3.10.7 security releases, raise `ValueError` for
  more than 4300 digits by default. The limit can be changed at run time
  (`sys.set_int_max_str_digits`, `PYTHONINTMAXSTRDIGITS`) or switched off, so it is
  not a fixed part of `int()`. On such a Python a longer Integer cell is skipped
  (dataPreprocessing.py:76-77, 136-137), but the model reads it.
- Integers.ParseDecimal: holds for every integer only when there is no digit limit.
  Under the default limit it holds for integers of at most 4300 digits.
- Expansion.FieldValueOfDecimal: under the same limit, an Integer cell of more than
  4300 digits is skipped rather than resolved to `n`.
- Unicode letter case and digits. `lower` and `capitalize` change ASCII letters only,
  and `int()` reads ASCII digits only. `strip` removes every character Python's
  `str.isspace` accepts.
- The exact YAML layout. `Blocks.Render` gives indicative text; the contracts are
  about the block structure (subject, clauses, their order), not the indentation.
- Tables.CleanData: strips every present cell of the three columns. pandas raises
  `AttributeError` on `.str` when such a column is not of object dtype, because all
  its cells are missing or all are numbers, and `main` then stops. The model has no
  such failure.
- The `KeyError` raised when a mapping row lacks `field_id` or `value_type`. It is a
  precondition (`Indexing.Keyed`, `Expansion.Resolvable`), because validation
  guarantees those columns on the path `process_data` takes.
- The `KeyError` raised when the rule CSV lacks a column that validation does not
  require: `pattern_type` at generateRules.py:314, and `ontology_mapping`, `observable`,
  `source_procedure` and `procedure` in the handlers (generateRules.py:8-13, 49-50,
  162-165). Also the `AttributeError` for a short row, which `csv.DictReader` fills
  with `None`. `Rules.RuleRow` has every column, read as text.
- Assembly.GenerateRules: takes the row compiler as a parameter, as `generate_rules`
  takes the handler table. `Assembly.CompileRow` instantiates it with
  `Generation.GenerateRule`, and `Assembly.CollectedKnown` states the result for that
  compiler.
- The mapping functions called from the rules (`extract_last_part`,
  `add_temporal_context`, `generateDynamicSubject`, …) run inside the RDF mapper.
  They appear as symbolic calls with their parameters and are not evaluated.
