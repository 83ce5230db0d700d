/** The six block generators of the rule compiler and the pattern table that
    chooses which of them run for a row of the rule CSV. */
module Rules {
  import opened Wrappers
  import opened Strings
  import opened Blocks

  /** One row of the rule CSV, every column read as text (empty when blank). */
  datatype RuleRow = RuleRow(
    fieldId: string,
    valueType: string,
    categoricalOntologyMapping: string,
    procedureResult: string,
    ontologyMapping: string,
    observable: string,
    sourceProcedure: string,
    procedure: string,
    fieldValue: string,
    patternType: string)

  // ------------------------------------------------------------ vocabulary

  const CASE_ID_REF := "$(case_id)"

  /** The subject of the procedure block for identifier `segment`. */
  function ProcedureIri(segment: string): string {
    "base:Procedure_" + (segment + "_" + CASE_ID_REF)
  }

  /** `<ontology_mapping>_<field_id>_$(case_id)`, the tail of a statement's subject. */
  function FieldSuffix(s: RuleRow): string {
    s.ontologyMapping + "_" + s.fieldId + "_" + CASE_ID_REF
  }

  /** The subjects of the three statement blocks. The situation statement's
      subject is written with column placeholders rather than the row's values. */
  function ObservationStatementIri(s: RuleRow): string {
    "base:ObservationResultSt_" + FieldSuffix(s)
  }

  function SituationStatementIri(): string {
    "base:ClinicalSituationSt_" + "$(ontology_mapping)_$(field_id)_" + CASE_ID_REF
  }

  function ProcedureStatementIri(s: RuleRow): string {
    "base:ClinicalProcedureSt_" + FieldSuffix(s)
  }

  /** The subject of the primitive-value block of field `fieldId`. */
  function PrimitiveValueIri(fieldId: string): string {
    "base:PrimitiveValue_" + (fieldId + "_" + CASE_ID_REF)
  }

  /** `extract_last_part` called from the mapping on a column and the case id. */
  function ExtractLastPartCall(column: string): Object {
    Computed(Call("extract_last_part", [Param(0, column), Param(1, "case_id")]))
  }

  // -------------------------------------------------------- extract_last_part

  /** The part of an IRI after its last `#`, or after its last `/` when it has
      no `#`; the whole text when it has neither. */
  function ExtractLastPart(uri: string): (r: string)
    ensures |r| <= |uri|
  {
    if '#' in uri then AfterLast(uri, '#') else AfterLast(uri, '/')
  }

  /** The last part is a suffix of the IRI free of `#` (and of `/` when the IRI
      has no `#`), and the character before it is the separator split on. */
  lemma ExtractLastPartSuffix(uri: string)
    ensures var r := ExtractLastPart(uri);
            && |r| <= |uri| && r == uri[|uri| - |r|..]
            && '#' !in r
            && ('#' !in uri ==> '/' !in r)
            && (|r| < |uri| ==> uri[|uri| - |r| - 1] == (if '#' in uri then '#' else '/'))
  {
    var r := ExtractLastPart(uri);
    if '#' in uri {
      assert r == AfterLast(uri, '#');
    } else {
      var a := AfterLast(uri, '/');
      assert r == a;
      SuffixAvoids(uri, a, '#');
    }
  }

  /** Splitting after the last separator gives back the name that followed it. */
  lemma {:induction false} AfterLastAppended(prefix: string, sep: char, name: string)
    requires sep !in name
    ensures AfterLast(prefix + [sep] + name, sep) == name
    decreases |name|
  {
    var s := prefix + [sep] + name;
    if |name| == 0 {
      assert s[|s| - 1] == sep;
    } else {
      var init := name[..|name| - 1];
      assert s[..|s| - 1] == prefix + [sep] + init;
      assert s[|s| - 1] == name[|name| - 1];
      AfterLastAppended(prefix, sep, init);
      assert init + [name[|name| - 1]] == name;
    }
  }

  /** `extract_last_part` recovers the local name of `namespace#name`, and of
      `namespace/name` when the namespace has no `#`. */
  lemma LocalNameRoundTrip(namespace: string, sep: char, name: string)
    requires sep == '#' || (sep == '/' && '#' !in namespace)
    requires '#' !in name && '/' !in name
    ensures ExtractLastPart(namespace + [sep] + name) == name
  {
    var uri := namespace + [sep] + name;
    if sep == '#' {
      assert uri[|namespace|] == '#';
    } else {
      assert '#' !in uri by {
        forall i | 0 <= i < |uri|
          ensures uri[i] != '#'
        {
          if i < |namespace| {
            assert uri[i] == namespace[i];
          } else if i > |namespace| {
            assert uri[i] == name[i - |namespace| - 1];
          }
        }
      }
    }
    AfterLastAppended(namespace, sep, name);
  }

  // ------------------------------------------------------------ the row read

  /** The row as every generator reads it: each column with surrounding
      whitespace removed. */
  function Stripped(row: RuleRow): RuleRow {
    RuleRow(Strip(row.fieldId), Strip(row.valueType), Strip(row.categoricalOntologyMapping),
            Strip(row.procedureResult), Strip(row.ontologyMapping), Strip(row.observable),
            Strip(row.sourceProcedure), Strip(row.procedure), Strip(row.fieldValue), Strip(row.patternType))
  }

  /** The subject of the procedure block a row's statement is the result of. */
  function ProcedureOf(s: RuleRow): string {
    ProcedureIri(ExtractLastPart(s.sourceProcedure))
  }

  // ------------------------------------------- ObservationResultStatement

  /** `generate_observation_result_statement`, on the stripped row. */
  function ObservationResultStatementBlock(s: RuleRow, source: string): (b: Block)
    ensures b.source == source
    ensures b.subject == SubjectIri(ObservationStatementIri(s))
  {
    var base := [
      Clause(A, Iri("stratifai:" + s.ontologyMapping)),
      Clause(HasObservable, Iri(s.observable)),
      Clause(IsResultOf, Iri(ProcedureOf(s))),
      Clause(TemporalContext, Computed(Call("add_temporal_context", [Param(0, "temporal_context")]))),
      Clause(SituationContext, Computed(Call("add_observable_statement_context",
                                              [Param(0, "value_type"), Param(1, "field_value")])))
    ];
    var valueLink := if s.valueType != "Boolean"
                     then [Clause(HasObservableValue, Iri(PrimitiveValueIri(s.fieldId)))] else [];
    Block(s.ontologyMapping + "_" + s.fieldId + "_ObservationResultStatement", source,
          SubjectIri(ObservationStatementIri(s)),
          base + valueLink)
  }

  /** `generate_procedure`, on the stripped row: the procedure block, typed with
      the full source procedure IRI and named after its last part; absent when
      the source procedure is blank. */
  function ProcedureBlock(s: RuleRow, source: string): (b: Option<Block>)
    ensures b.None? <==> s.sourceProcedure == ""
    ensures b.Some? ==> b.value.source == source && b.value.subject == SubjectIri(ProcedureOf(s))
    ensures b.Some? ==> Has(b.value, A, Iri(s.sourceProcedure)) && Only(b.value, A, Iri(s.sourceProcedure))
  {
    if s.sourceProcedure == "" then None
    else
      Some(Block(s.ontologyMapping + "_ResultOfProcedure", source,
                 SubjectIri(ProcedureOf(s)),
                 [Clause(A, Iri(s.sourceProcedure))]))
  }

  const XSD_TYPES: map<string, string> :=
    map["integer" := "xsd:integer", "float" := "xsd:double", "datetime" := "xsd:dateTime",
        "string" := "xsd:string", "boolean" := "xsd:boolean"]

  /** The XSD datatype of a (stripped) value type, matched without regard to
      case; unknown types are written as strings. */
  function XsdDatatype(valueType: string): string {
    var key := Lower(valueType);
    if key in XSD_TYPES then XSD_TYPES[key] else "xsd:string"
  }

  /** Every value type gets one of the five datatypes, and only the four known
      types, in any letter case, get one other than `xsd:string`. */
  lemma XsdDatatypeCases(valueType: string)
    ensures XsdDatatype(valueType) in XSD_TYPES.Values
    ensures XsdDatatype(valueType) == "xsd:string" <==> Lower(valueType) !in {"integer", "float", "datetime", "boolean"}
  {
    assert XSD_TYPES["string"] == "xsd:string";
  }

  /** Upper- and lower-case spellings of a value type get the same datatype. */
  lemma XsdDatatypeIgnoresCase(a: string, b: string)
    requires EqualsIgnoreCase(a, b)
    ensures XsdDatatype(a) == XsdDatatype(b)
  {
  }

  /** `generate_observation_result`, on the stripped row: the primitive-value
      block holding the field value with its XSD datatype. */
  function ObservationResultBlock(s: RuleRow, source: string): (b: Block)
    ensures b.source == source
    ensures b.subject == SubjectIri(PrimitiveValueIri(s.fieldId))
    ensures Has(b, HasValue, Typed(Placeholder("field_value"), XsdDatatype(s.valueType)))
    ensures Only(b, HasValue, Typed(Placeholder("field_value"), XsdDatatype(s.valueType)))
  {
    Block(s.ontologyMapping + "_" + s.fieldId + "_PrimitiveValue", source,
          SubjectIri(PrimitiveValueIri(s.fieldId)),
          [Clause(A, Iri("scdm:QuantitativeResultValue")),
           Clause(HasValue, Typed(Placeholder("field_value"), XsdDatatype(s.valueType)))])
  }

  // ------------------------------------------- ClinicalSituationStatement

  /** What the situation statement represents: the categorical term for a
      categorical row that has one, the finding otherwise. */
  function RepresentedSituation(s: RuleRow): string {
    if s.valueType == "Categorical" && s.categoricalOntologyMapping != ""
    then Placeholder("categorical_ontology_mapping") else Placeholder("finding")
  }

  /** `generate_clinical_situation_statement`, on the stripped row. */
  function ClinicalSituationStatementBlock(s: RuleRow, source: string): (b: Block)
    ensures b.source == source
    ensures b.subject == SubjectIri(SituationStatementIri())
  {
    var base := [
      Clause(A, Iri("stratifai:" + s.ontologyMapping)),
      Clause(IsResultOf, Iri(ProcedureOf(s))),
      Clause(TemporalContext, Computed(Call("add_temporal_context", [Param(0, "temporal_context")]))),
      Clause(SituationContext, Computed(Call("add_situation_context",
                                              [Param(0, "value_type"), Param(1, "field_value"),
                                               Param(2, "statement_context")]))),
      Clause(RepresentsSituation, Iri(RepresentedSituation(s)))
    ];
    var resultLink := if s.procedureResult != ""
                      then [Clause(IsResultOf, ExtractLastPartCall("procedure_result"))] else [];
    Block(s.ontologyMapping + "_ClinicalSituationStatement", source,
          SubjectIri(SituationStatementIri()),
          base + resultLink)
  }

  // ------------------------------------------- ClinicalProcedureStatement

  /** `procedure` values that name a context of the procedure rather than the procedure. */
  const CONTEXT_PROCEDURES: seq<string> := ["dateTime", "procedureReason", "procedureLocation", "performer"]

  /** The column whose term the procedure statement represents, if any. */
  function RepresentsProcedureColumn(s: RuleRow): (column: Option<string>)
    ensures column.None? || column == Some("procedure") || column == Some("categorical_ontology_mapping")
  {
    if s.valueType == "Boolean" then Some("procedure")
    else if Capitalize(s.fieldValue) in ["Yes", "No"] then Some("procedure")
    else if s.categoricalOntologyMapping != "" && s.procedure !in CONTEXT_PROCEDURES
    then Some("categorical_ontology_mapping")
    else None
  }

  /** The procedure statement represents the procedure for Boolean rows and for
      yes/no answers in any letter case; otherwise the categorical term, when
      there is one and the procedure does not name a context. */
  lemma RepresentsProcedureColumnCases(s: RuleRow)
    ensures RepresentsProcedureColumn(s) == Some("procedure") <==>
              || s.valueType == "Boolean"
              || EqualsIgnoreCase(s.fieldValue, "Yes")
              || EqualsIgnoreCase(s.fieldValue, "No")
    ensures RepresentsProcedureColumn(s) == Some("categorical_ontology_mapping") <==>
              && s.valueType != "Boolean"
              && !EqualsIgnoreCase(s.fieldValue, "Yes")
              && !EqualsIgnoreCase(s.fieldValue, "No")
              && s.categoricalOntologyMapping != ""
              && s.procedure !in CONTEXT_PROCEDURES
  {
    CapitalizeMatchesIgnoringCase(s.fieldValue, "Yes");
    CapitalizeMatchesIgnoringCase(s.fieldValue, "No");
  }

  /** `generate_clinical_procedure_statement`, on the stripped row. */
  function ClinicalProcedureStatementBlock(s: RuleRow, source: string): (b: Block)
    ensures b.source == source
    ensures b.subject == SubjectIri(ProcedureStatementIri(s))
  {
    var base := [
      Clause(A, Iri("stratifai:" + s.ontologyMapping)),
      Clause(IsResultOf, Iri(ProcedureOf(s))),
      Clause(ProcedureContext, Computed(Call("add_procedure_statement_context",
                                              [Param(0, "value_type"), Param(2, "field_value"),
                                               Param(3, "categorical_ontology_mapping")]))),
      Clause(ProcedureReason, Computed(Call("add_procedure_reason",
                                             [Param(0, "procedure"), Param(1, "procedure_reason")]))),
      Clause(ProcedureLocation, Computed(Call("add_procedure_location",
                                               [Param(0, "procedure"), Param(1, "procedure_location")]))),
      Clause(HasInformationAboutProvider, Computed(Call("add_procedure_performer", [Param(0, "procedure")]))),
      Clause(TemporalContext, Computed(Call("add_procedure_dateTime",
                                             [Param(0, "procedure"), Param(1, "categorical_ontology_mapping")])))
    ];
    var represents := match RepresentsProcedureColumn(s)
                      case Some(column) => [Clause(RepresentsProcedure, ExtractLastPartCall(column))]
                      case None => [];
    Block(s.ontologyMapping + "_" + s.fieldId + "_ClinicalProcedureStatement", source,
          SubjectIri(ProcedureStatementIri(s)),
          base + represents)
  }

  /** The four columns the dynamic subject and object functions receive. */
  function DynamicParams(): seq<Param> {
    [Param(0, "value_type"), Param(1, "procedure"), Param(2, "field_value"),
     Param(3, "categorical_ontology_mapping")]
  }

  /** `generate_represented_procedure`, on the stripped row: the block typing the
      represented procedure, absent when the row has neither a categorical term
      nor an `http` IRI as its procedure. Its subject is computed per CSV row. */
  function RepresentedProcedureBlock(s: RuleRow, source: string): (b: Option<Block>)
    ensures b.None? <==> s.categoricalOntologyMapping == "" && !exists i :: OccursAt(s.procedure, "http", i)
    ensures b.Some? ==> b.value.source == source && b.value.subject.SubjectCall?
  {
    ContainsIffOccurs(s.procedure, "http");
    if s.categoricalOntologyMapping == "" && !Contains(s.procedure, "http") then None
    else
      Some(Block(s.ontologyMapping + "_RepresentedProcedure", source,
                 SubjectCall(Call("generateDynamicSubject", DynamicParams() + [Param(4, "case_id")])),
                 [Clause(RdfType, Computed(Call("generateDynamicObject", DynamicParams())))]))
  }

  // -------------------------------------------------------- block contents

  /** The predicates of the observation statement, in order: the value link
      comes last and only for non-Boolean values. */
  lemma ObservationStatementPreds(s: RuleRow, source: string)
    ensures Preds(ObservationResultStatementBlock(s, source).clauses) ==
              [A, HasObservable] + [IsResultOf] + ([TemporalContext, SituationContext] + ObservationValuePreds(s))
    ensures Preds(ObservationResultStatementBlock(s, source).clauses) ==
              [A, HasObservable, IsResultOf, TemporalContext, SituationContext] + ObservationValuePreds(s)
  {
  }

  function ObservationValuePreds(s: RuleRow): seq<Predicate> {
    if s.valueType != "Boolean" then [HasObservableValue] else []
  }

  /** The observation statement is the result of the row's procedure block, and
      of nothing else. */
  lemma ObservationStatementResult(s: RuleRow, source: string)
    ensures Has(ObservationResultStatementBlock(s, source), IsResultOf, Iri(ProcedureOf(s)))
    ensures Only(ObservationResultStatementBlock(s, source), IsResultOf, Iri(ProcedureOf(s)))
  {
    var after := [TemporalContext, SituationContext] + ObservationValuePreds(s);
    assert after == [TemporalContext, SituationContext, HasObservableValue] || after == [TemporalContext, SituationContext];
    ObservationStatementPreds(s, source);
    OnlyAt(ObservationResultStatementBlock(s, source), [A, HasObservable], IsResultOf, after, Iri(ProcedureOf(s)));
  }

  /** A non-Boolean observation statement points at the row's primitive value,
      and at nothing else, as its observable value. */
  lemma ObservationValueLinked(s: RuleRow, source: string)
    requires s.valueType != "Boolean"
    ensures Has(ObservationResultStatementBlock(s, source), HasObservableValue, Iri(PrimitiveValueIri(s.fieldId)))
    ensures Only(ObservationResultStatementBlock(s, source), HasObservableValue, Iri(PrimitiveValueIri(s.fieldId)))
  {
    var b := ObservationResultStatementBlock(s, source);
    var before := [A, HasObservable, IsResultOf, TemporalContext, SituationContext];
    ObservationStatementPreds(s, source);
    assert Preds(b.clauses) == before + [HasObservableValue];
    OnlyLast(b, before, HasObservableValue, Iri(PrimitiveValueIri(s.fieldId)));
  }

  /** A Boolean observation statement has no observable value. */
  lemma ObservationValueAbsent(s: RuleRow, source: string)
    requires s.valueType == "Boolean"
    ensures Lacks(ObservationResultStatementBlock(s, source), HasObservableValue)
  {
    var b := ObservationResultStatementBlock(s, source);
    var before := [A, HasObservable, IsResultOf, TemporalContext, SituationContext];
    ObservationStatementPreds(s, source);
    LacksByPreds(b, before + ObservationValuePreds(s), HasObservableValue);
  }

  /** Both links of the observation statement. */
  lemma ObservationStatementLinks(s: RuleRow, source: string)
    ensures Has(ObservationResultStatementBlock(s, source), IsResultOf, Iri(ProcedureOf(s)))
    ensures Only(ObservationResultStatementBlock(s, source), IsResultOf, Iri(ProcedureOf(s)))
    ensures s.valueType == "Boolean" ==> Lacks(ObservationResultStatementBlock(s, source), HasObservableValue)
    ensures s.valueType != "Boolean" ==>
              && Has(ObservationResultStatementBlock(s, source), HasObservableValue, Iri(PrimitiveValueIri(s.fieldId)))
              && Only(ObservationResultStatementBlock(s, source), HasObservableValue, Iri(PrimitiveValueIri(s.fieldId)))
  {
    ObservationStatementResult(s, source);
    if s.valueType != "Boolean" {
      ObservationValueLinked(s, source);
    } else {
      ObservationValueAbsent(s, source);
    }
  }

  /** The predicates of the situation statement, in order: the derived result
      link comes last and only when the row names a procedure result. */
  lemma SituationStatementPreds(s: RuleRow, source: string)
    ensures Preds(ClinicalSituationStatementBlock(s, source).clauses) ==
              [A, IsResultOf, TemporalContext, SituationContext] + [RepresentsSituation] + SituationResultPreds(s)
  {
  }

  function SituationResultPreds(s: RuleRow): seq<Predicate> {
    if s.procedureResult != "" then [IsResultOf] else []
  }

  /** The situation statement represents `RepresentedSituation`, and nothing else. */
  lemma SituationStatementRepresents(s: RuleRow, source: string)
    ensures Has(ClinicalSituationStatementBlock(s, source), RepresentsSituation, Iri(RepresentedSituation(s)))
    ensures Only(ClinicalSituationStatementBlock(s, source), RepresentsSituation, Iri(RepresentedSituation(s)))
  {
    SituationStatementPreds(s, source);
    OnlyAt(ClinicalSituationStatementBlock(s, source), [A, IsResultOf, TemporalContext, SituationContext],
           RepresentsSituation, SituationResultPreds(s), Iri(RepresentedSituation(s)));
  }

  /** Besides the row's procedure block, the situation statement is the result
      of the procedure named in the procedure-result column exactly when the
      row names one. */
  lemma SituationStatementResults(s: RuleRow, source: string)
    ensures Has(ClinicalSituationStatementBlock(s, source), IsResultOf, Iri(ProcedureOf(s)))
    ensures Has(ClinicalSituationStatementBlock(s, source), IsResultOf, ExtractLastPartCall("procedure_result"))
            <==> s.procedureResult != ""
  {
    var b := ClinicalSituationStatementBlock(s, source);
    var derived := ExtractLastPartCall("procedure_result");
    assert b.clauses[1] == Clause(IsResultOf, Iri(ProcedureOf(s)));
    SituationStatementPreds(s, source);
    if s.procedureResult != "" {
      assert b.clauses[5] == Clause(IsResultOf, derived);
    } else {
      assert Preds(b.clauses) == [A] + [IsResultOf] + [TemporalContext, SituationContext, RepresentsSituation];
      OnlyAt(b, [A], IsResultOf, [TemporalContext, SituationContext, RepresentsSituation], Iri(ProcedureOf(s)));
    }
  }

  /** The links of the situation statement. */
  lemma SituationStatementLinks(s: RuleRow, source: string)
    ensures Has(ClinicalSituationStatementBlock(s, source), IsResultOf, Iri(ProcedureOf(s)))
    ensures Has(ClinicalSituationStatementBlock(s, source), RepresentsSituation, Iri(RepresentedSituation(s)))
    ensures Only(ClinicalSituationStatementBlock(s, source), RepresentsSituation, Iri(RepresentedSituation(s)))
    ensures (Has(ClinicalSituationStatementBlock(s, source), IsResultOf, ExtractLastPartCall("procedure_result"))
             <==> s.procedureResult != "")
  {
    SituationStatementRepresents(s, source);
    SituationStatementResults(s, source);
  }

  /** The predicates of the procedure statement, in order: the represented
      procedure comes last and only when a column is selected for it. */
  lemma ProcedureStatementPreds(s: RuleRow, source: string)
    ensures Preds(ClinicalProcedureStatementBlock(s, source).clauses) == ProcedureStatementFixedPreds() + RepresentsPreds(s)
  {
  }

  function ProcedureStatementFixedPreds(): seq<Predicate> {
    [A, IsResultOf, ProcedureContext, ProcedureReason, ProcedureLocation, HasInformationAboutProvider, TemporalContext]
  }

  function RepresentsPreds(s: RuleRow): seq<Predicate> {
    if RepresentsProcedureColumn(s).Some? then [RepresentsProcedure] else []
  }

  /** The procedure statement represents the term of the selected column, and
      nothing else. */
  lemma ProcedureStatementRepresents(s: RuleRow, source: string)
    requires RepresentsProcedureColumn(s).Some?
    ensures Has(ClinicalProcedureStatementBlock(s, source), RepresentsProcedure,
                ExtractLastPartCall(RepresentsProcedureColumn(s).value))
    ensures Only(ClinicalProcedureStatementBlock(s, source), RepresentsProcedure,
                 ExtractLastPartCall(RepresentsProcedureColumn(s).value))
  {
    var b := ClinicalProcedureStatementBlock(s, source);
    ProcedureStatementPreds(s, source);
    OnlyLast(b, ProcedureStatementFixedPreds(), RepresentsProcedure, ExtractLastPartCall(RepresentsProcedureColumn(s).value));
  }

  /** With no column selected, the procedure statement represents nothing. */
  lemma ProcedureStatementRepresentsNothing(s: RuleRow, source: string)
    requires RepresentsProcedureColumn(s).None?
    ensures Lacks(ClinicalProcedureStatementBlock(s, source), RepresentsProcedure)
  {
    var b := ClinicalProcedureStatementBlock(s, source);
    ProcedureStatementPreds(s, source);
    LacksByPreds(b, ProcedureStatementFixedPreds() + RepresentsPreds(s), RepresentsProcedure);
  }

  /** The procedure statement is the result of the row's procedure block and
      represents the term of the column `RepresentsProcedureColumn` selects, or
      no term when it selects none. */
  lemma ProcedureStatementLinks(s: RuleRow, source: string)
    ensures Has(ClinicalProcedureStatementBlock(s, source), IsResultOf, Iri(ProcedureOf(s)))
    ensures RepresentsProcedureColumn(s).None? ==> Lacks(ClinicalProcedureStatementBlock(s, source), RepresentsProcedure)
    ensures RepresentsProcedureColumn(s).Some? ==>
              && Has(ClinicalProcedureStatementBlock(s, source), RepresentsProcedure,
                     ExtractLastPartCall(RepresentsProcedureColumn(s).value))
              && Only(ClinicalProcedureStatementBlock(s, source), RepresentsProcedure,
                      ExtractLastPartCall(RepresentsProcedureColumn(s).value))
  {
    assert ClinicalProcedureStatementBlock(s, source).clauses[1] == Clause(IsResultOf, Iri(ProcedureOf(s)));
    if RepresentsProcedureColumn(s).Some? {
      ProcedureStatementRepresents(s, source);
    } else {
      ProcedureStatementRepresentsNothing(s, source);
    }
  }
}
