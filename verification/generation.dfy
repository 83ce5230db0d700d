/** `generate_rule` and the pattern table of `load_pattern_handlers`: a row's
    pattern type chooses a fixed sequence of generators, and the blocks they
    produce, joined by newlines, are the row's rule. */
module Generation {
  import opened Wrappers
  import opened Strings
  import opened Seqs
  import opened Blocks
  import opened Rules

  datatype PatternType = ObservationResultStatement | ClinicalSituationStatement | ClinicalProcedureStatement

  function PatternLabel(p: PatternType): string {
    match p
    case ObservationResultStatement => "ObservationResultStatement"
    case ClinicalSituationStatement => "ClinicalSituationStatement"
    case ClinicalProcedureStatement => "ClinicalProcedureStatement"
  }

  /** The pattern a `pattern_type` cell names once stripped; `None` for any other text. */
  function ParsePattern(cell: string): (p: Option<PatternType>)
    ensures p.Some? ==> PatternLabel(p.value) == Strip(cell)
    ensures p.None? ==> forall q :: PatternLabel(q) != Strip(cell)
  {
    var key := Strip(cell);
    if key == "ObservationResultStatement" then Some(ObservationResultStatement)
    else if key == "ClinicalSituationStatement" then Some(ClinicalSituationStatement)
    else if key == "ClinicalProcedureStatement" then Some(ClinicalProcedureStatement)
    else None
  }

  /** Every pattern is recognised from its own label, with or without padding. */
  lemma ParsePatternLabel(q: PatternType, left: string, right: string)
    requires forall i :: 0 <= i < |left| ==> IsSpace(left[i])
    requires forall i :: 0 <= i < |right| ==> IsSpace(right[i])
    ensures ParsePattern(left + PatternLabel(q) + right) == Some(q)
  {
    var name := PatternLabel(q);
    assert name[0] == 'O' || name[0] == 'C';
    assert name[|name| - 1] == 't';
    StripPadded(left, name, right);
  }

  // --------------------------------------------------------------- generators

  /** The six block generators of the rule compiler. */
  datatype Generator =
    | ObservationResultStatementGen
    | ProcedureGen
    | ObservationResultGen
    | ClinicalSituationStatementGen
    | ClinicalProcedureStatementGen
    | RepresentedProcedureGen

  /** `load_pattern_handlers`: the generators of each pattern, in order. */
  function Generators(p: PatternType): (gs: seq<Generator>)
    ensures |gs| > 0
  {
    match p
    case ObservationResultStatement => [ObservationResultStatementGen, ProcedureGen, ObservationResultGen]
    case ClinicalSituationStatement => [ClinicalSituationStatementGen, ProcedureGen]
    case ClinicalProcedureStatement => [ClinicalProcedureStatementGen, RepresentedProcedureGen, ProcedureGen]
  }

  /** One generator on a stripped row; `None` where the source returns an empty
      string or nothing. */
  function Apply(g: Generator, s: RuleRow, source: string): Option<Block> {
    match g
    case ObservationResultStatementGen => Some(ObservationResultStatementBlock(s, source))
    case ProcedureGen => ProcedureBlock(s, source)
    case ObservationResultGen => Some(ObservationResultBlock(s, source))
    case ClinicalSituationStatementGen => Some(ClinicalSituationStatementBlock(s, source))
    case ClinicalProcedureStatementGen => Some(ClinicalProcedureStatementBlock(s, source))
    case RepresentedProcedureGen => RepresentedProcedureBlock(s, source)
  }

  /** What each generator returns, in generator order. */
  function Outputs(gs: seq<Generator>, s: RuleRow, source: string): (os: seq<Option<Block>>)
    ensures |os| == |gs|
  {
    seq(|gs|, i requires 0 <= i < |gs| => Apply(gs[i], s, source))
  }

  /** The blocks of a (stripped) row of pattern `p`: the generators' outputs in
      order, skipped ones dropped. */
  function RuleBlocks(p: PatternType, s: RuleRow, source: string): seq<Block> {
    Somes(Outputs(Generators(p), s, source))
  }

  function RenderAll(bs: seq<Block>): (texts: seq<string>)
    ensures |texts| == |bs|
    ensures forall i :: 0 <= i < |bs| ==> texts[i] == Render(bs[i])
  {
    seq(|bs|, i requires 0 <= i < |bs| => Render(bs[i]))
  }

  /** The statement block that heads every rule of pattern `p`. */
  function Statement(p: PatternType, s: RuleRow, source: string): Block {
    match p
    case ObservationResultStatement => ObservationResultStatementBlock(s, source)
    case ClinicalSituationStatement => ClinicalSituationStatementBlock(s, source)
    case ClinicalProcedureStatement => ClinicalProcedureStatementBlock(s, source)
  }

  /** The rule of a stripped row of a known pattern: its blocks joined by
      newlines, opening with the statement block. */
  function RuleText(p: PatternType, s: RuleRow, source: string): (text: string)
    ensures |Render(Statement(p, s, source))| <= |text|
    ensures text[..|Render(Statement(p, s, source))|] == Render(Statement(p, s, source))
  {
    var texts := RenderAll(RuleBlocks(p, s, source));
    FirstGeneratorProduces(p, s, source);
    Join(texts, "\n")
  }

  /** `generate_rule`: the rule of the stripped row, or the empty text for an
      unknown pattern type; a known pattern never yields the empty text. */
  function GenerateRule(row: RuleRow, source: string): (text: string)
    ensures text == "" <==> ParsePattern(row.patternType).None?
    ensures ParsePattern(row.patternType).Some? ==> text == RuleText(ParsePattern(row.patternType).value, Stripped(row), source)
  {
    match ParsePattern(row.patternType)
    case None => ""
    case Some(p) => RuleText(p, Stripped(row), source)
  }

  /** The statement generator heads every pattern and always produces its block. */
  lemma FirstGeneratorProduces(p: PatternType, s: RuleRow, source: string)
    ensures |RuleBlocks(p, s, source)| > 0
    ensures RuleBlocks(p, s, source)[0] == Statement(p, s, source)
  {
    var os := Outputs(Generators(p), s, source);
    assert os[0] == Some(Statement(p, s, source));
    assert Somes(os) == [Statement(p, s, source)] + Somes(os[1..]);
  }

  // -------------------------------------------------------------- rule shape

  lemma ObservationBlocksListed(s: RuleRow, source: string)
    ensures RuleBlocks(ObservationResultStatement, s, source) ==
              [ObservationResultStatementBlock(s, source)] + Emitted(ProcedureBlock(s, source)) + [ObservationResultBlock(s, source)]
  {
    var os := Outputs(Generators(ObservationResultStatement), s, source);
    assert os == [Some(ObservationResultStatementBlock(s, source)), ProcedureBlock(s, source), Some(ObservationResultBlock(s, source))];
    SomesTriple(os[0], os[1], os[2]);
  }

  lemma SituationBlocksListed(s: RuleRow, source: string)
    ensures RuleBlocks(ClinicalSituationStatement, s, source) ==
              [ClinicalSituationStatementBlock(s, source)] + Emitted(ProcedureBlock(s, source))
  {
    var os := Outputs(Generators(ClinicalSituationStatement), s, source);
    assert os[0] == Some(ClinicalSituationStatementBlock(s, source));
    assert os[1] == ProcedureBlock(s, source);
    assert os == [os[0], os[1]];
    SomesPair(os[0], os[1]);
  }

  lemma ProcedureBlocksListed(s: RuleRow, source: string)
    ensures RuleBlocks(ClinicalProcedureStatement, s, source) ==
              [ClinicalProcedureStatementBlock(s, source)] + Emitted(RepresentedProcedureBlock(s, source))
              + Emitted(ProcedureBlock(s, source))
  {
    var os := Outputs(Generators(ClinicalProcedureStatement), s, source);
    assert os == [Some(ClinicalProcedureStatementBlock(s, source)), RepresentedProcedureBlock(s, source), ProcedureBlock(s, source)];
    SomesTriple(os[0], os[1], os[2]);
  }

  /** No generator other than the procedure generator writes a block whose
      subject is a procedure IRI: their subjects differ from `base:Procedure_…`
      within the first eight characters. */
  lemma ObservationSubjectsNotProcedures(s: RuleRow, source: string, segment: string)
    ensures ObservationResultStatementBlock(s, source).subject != SubjectIri(ProcedureIri(segment))
    ensures ObservationResultBlock(s, source).subject != SubjectIri(ProcedureIri(segment))
  {
    assert ProcedureIri(segment)[5] == 'P' && ProcedureIri(segment)[7] == 'o';
    assert ObservationStatementIri(s)[5] == 'O';
    assert PrimitiveValueIri(s.fieldId)[7] == 'i';
  }

  lemma StatementSubjectsNotProcedures(s: RuleRow, source: string, segment: string)
    ensures ClinicalSituationStatementBlock(s, source).subject != SubjectIri(ProcedureIri(segment))
    ensures ClinicalProcedureStatementBlock(s, source).subject != SubjectIri(ProcedureIri(segment))
  {
    assert ProcedureIri(segment)[5] == 'P';
    assert SituationStatementIri()[5] == 'C';
    assert ProcedureStatementIri(s)[5] == 'C';
  }

  /** A rule whose only block with subject `iri` is the optional one in the
      middle defines `iri` exactly when that block is present. */
  lemma DefinedByMiddle(pre: seq<Block>, o: Option<Block>, post: seq<Block>, iri: string)
    requires !Defines(pre, iri) && !Defines(post, iri)
    requires o.Some? ==> o.value.subject == SubjectIri(iri)
    ensures Defines(pre + Emitted(o) + post, iri) <==> o.Some?
  {
    DefinesAppend(pre + Emitted(o), post, iri);
    DefinesAppend(pre, Emitted(o), iri);
    if o.Some? {
      assert Emitted(o)[0].subject == SubjectIri(iri);
    }
  }

  lemma DefinedAtEnd(pre: seq<Block>, o: Option<Block>, iri: string)
    requires !Defines(pre, iri)
    requires o.Some? ==> o.value.subject == SubjectIri(iri)
    ensures Defines(pre + Emitted(o), iri) <==> o.Some?
  {
    DefinesAppend(pre, Emitted(o), iri);
    if o.Some? {
      assert Emitted(o)[0].subject == SubjectIri(iri);
    }
  }

  lemma ObservationProcedureLink(s: RuleRow, source: string)
    ensures Has(RuleBlocks(ObservationResultStatement, s, source)[0], IsResultOf, Iri(ProcedureOf(s)))
    ensures Defines(RuleBlocks(ObservationResultStatement, s, source), ProcedureOf(s)) <==> s.sourceProcedure != ""
  {
    ObservationBlocksListed(s, source);
    ObservationStatementLinks(s, source);
    ObservationSubjectsNotProcedures(s, source, ExtractLastPart(s.sourceProcedure));
    DefinedByMiddle([ObservationResultStatementBlock(s, source)], ProcedureBlock(s, source),
                    [ObservationResultBlock(s, source)], ProcedureOf(s));
  }

  lemma SituationProcedureLink(s: RuleRow, source: string)
    ensures Has(RuleBlocks(ClinicalSituationStatement, s, source)[0], IsResultOf, Iri(ProcedureOf(s)))
    ensures Defines(RuleBlocks(ClinicalSituationStatement, s, source), ProcedureOf(s)) <==> s.sourceProcedure != ""
  {
    var x := ClinicalSituationStatementBlock(s, source);
    SituationBlocksListed(s, source);
    SituationStatementLinks(s, source);
    StatementSubjectsNotProcedures(s, source, ExtractLastPart(s.sourceProcedure));
    assert [x] + Emitted(ProcedureBlock(s, source)) == [x] + Emitted(ProcedureBlock(s, source)) + [];
    DefinedByMiddle([x], ProcedureBlock(s, source), [], ProcedureOf(s));
  }

  lemma ProcedureProcedureLink(s: RuleRow, source: string)
    ensures Has(RuleBlocks(ClinicalProcedureStatement, s, source)[0], IsResultOf, Iri(ProcedureOf(s)))
    ensures Defines(RuleBlocks(ClinicalProcedureStatement, s, source), ProcedureOf(s)) <==> s.sourceProcedure != ""
  {
    var x := ClinicalProcedureStatementBlock(s, source);
    var rep := Emitted(RepresentedProcedureBlock(s, source));
    ProcedureBlocksListed(s, source);
    ProcedureStatementLinks(s, source);
    StatementSubjectsNotProcedures(s, source, ExtractLastPart(s.sourceProcedure));
    DefinesAppend([x], rep, ProcedureOf(s));
    DefinedAtEnd([x] + rep, ProcedureBlock(s, source), ProcedureOf(s));
  }

  /** The statement of every rule is the result of a procedure, and that
      procedure is defined within the same rule exactly when the row names a
      source procedure: a blank one leaves the link dangling. */
  lemma ProcedureLinkResolves(p: PatternType, s: RuleRow, source: string)
    ensures Has(RuleBlocks(p, s, source)[0], IsResultOf, Iri(ProcedureOf(s)))
    ensures Defines(RuleBlocks(p, s, source), ProcedureOf(s)) <==> s.sourceProcedure != ""
  {
    match p
    case ObservationResultStatement => ObservationProcedureLink(s, source);
    case ClinicalSituationStatement => SituationProcedureLink(s, source);
    case ClinicalProcedureStatement => ProcedureProcedureLink(s, source);
  }

  /** Unless the value is Boolean, the observation statement points at a
      primitive value the same rule defines; a Boolean statement points at none. */
  lemma ObservableValueResolves(s: RuleRow, source: string)
    ensures s.valueType == "Boolean" ==> Lacks(RuleBlocks(ObservationResultStatement, s, source)[0], HasObservableValue)
    ensures s.valueType != "Boolean" ==>
              && Has(RuleBlocks(ObservationResultStatement, s, source)[0], HasObservableValue, Iri(PrimitiveValueIri(s.fieldId)))
              && Only(RuleBlocks(ObservationResultStatement, s, source)[0], HasObservableValue, Iri(PrimitiveValueIri(s.fieldId)))
              && Defines(RuleBlocks(ObservationResultStatement, s, source), PrimitiveValueIri(s.fieldId))
  {
    var bs := RuleBlocks(ObservationResultStatement, s, source);
    ObservationBlocksListed(s, source);
    ObservationStatementLinks(s, source);
    assert bs[|bs| - 1] == ObservationResultBlock(s, source);
  }

  // ------------------------------------------------------------- block names

  /** Texts that differ `k` places from their ends differ after any prefixes. */
  lemma SuffixesDiffer(x: string, a: string, y: string, b: string, k: nat)
    requires 0 < k <= |a| && k <= |b| && a[|a| - k] != b[|b| - k]
    ensures x + a != y + b
  {
    assert (x + a)[|x + a| - k] == a[|a| - k];
    assert (y + b)[|y + b| - k] == b[|b| - k];
  }

  function Names(bs: seq<Block>): (names: seq<string>)
    ensures |names| == |bs|
    ensures forall i :: 0 <= i < |bs| ==> names[i] == bs[i].name
  {
    seq(|bs|, i requires 0 <= i < |bs| => bs[i].name)
  }

  /** The names of a statement block followed by optional blocks, or by an
      optional block and a present one, are distinct when they differ pairwise. */
  lemma NamesAfter(x: Block, o: Option<Block>)
    requires o.Some? ==> o.value.name != x.name
    ensures Distinct(Names([x] + Emitted(o)))
  {
  }

  lemma NamesAround(x: Block, o: Option<Block>, y: Block)
    requires x.name != y.name
    requires o.Some? ==> o.value.name != x.name && o.value.name != y.name
    ensures Distinct(Names([x] + Emitted(o) + [y]))
  {
  }

  lemma NamesAfterBoth(x: Block, o1: Option<Block>, o2: Option<Block>)
    requires o1.Some? ==> o1.value.name != x.name
    requires o2.Some? ==> o2.value.name != x.name
    requires o1.Some? && o2.Some? ==> o1.value.name != o2.value.name
    ensures Distinct(Names([x] + Emitted(o1) + Emitted(o2)))
  {
  }

  lemma ObservationNamesDistinct(s: RuleRow, source: string)
    ensures Distinct(Names(RuleBlocks(ObservationResultStatement, s, source)))
  {
    var om := s.ontologyMapping;
    var fid := s.fieldId;
    var x := ObservationResultStatementBlock(s, source);
    var o := ProcedureBlock(s, source);
    var y := ObservationResultBlock(s, source);
    ObservationBlocksListed(s, source);
    assert x.name == om + "_" + fid + "_ObservationResultStatement";
    assert o.Some? ==> o.value.name == om + "_ResultOfProcedure";
    assert y.name == om + "_" + fid + "_PrimitiveValue";
    SuffixesDiffer(om + "_" + fid, "_ObservationResultStatement", om, "_ResultOfProcedure", 1);
    SuffixesDiffer(om + "_" + fid, "_ObservationResultStatement", om + "_" + fid, "_PrimitiveValue", 1);
    SuffixesDiffer(om, "_ResultOfProcedure", om + "_" + fid, "_PrimitiveValue", 2);
    NamesAround(x, o, y);
  }

  lemma SituationNamesDistinct(s: RuleRow, source: string)
    ensures Distinct(Names(RuleBlocks(ClinicalSituationStatement, s, source)))
  {
    var om := s.ontologyMapping;
    var x := ClinicalSituationStatementBlock(s, source);
    var o := ProcedureBlock(s, source);
    SituationBlocksListed(s, source);
    assert x.name == om + "_ClinicalSituationStatement";
    assert o.Some? ==> o.value.name == om + "_ResultOfProcedure";
    SuffixesDiffer(om, "_ClinicalSituationStatement", om, "_ResultOfProcedure", 1);
    NamesAfter(x, o);
  }

  lemma ProcedureNamesDistinct(s: RuleRow, source: string)
    ensures Distinct(Names(RuleBlocks(ClinicalProcedureStatement, s, source)))
  {
    var om := s.ontologyMapping;
    var fid := s.fieldId;
    var x := ClinicalProcedureStatementBlock(s, source);
    var r := RepresentedProcedureBlock(s, source);
    var o := ProcedureBlock(s, source);
    ProcedureBlocksListed(s, source);
    assert x.name == om + "_" + fid + "_ClinicalProcedureStatement";
    assert r.Some? ==> r.value.name == om + "_RepresentedProcedure";
    assert o.Some? ==> o.value.name == om + "_ResultOfProcedure";
    SuffixesDiffer(om + "_" + fid, "_ClinicalProcedureStatement", om, "_RepresentedProcedure", 1);
    SuffixesDiffer(om + "_" + fid, "_ClinicalProcedureStatement", om, "_ResultOfProcedure", 1);
    assert |om + "_RepresentedProcedure"| != |om + "_ResultOfProcedure"|;
    NamesAfterBoth(x, r, o);
  }

  /** The blocks of one rule have pairwise different names, so they never
      collide as keys of the mapping document. */
  lemma BlockNamesDistinct(p: PatternType, s: RuleRow, source: string)
    ensures Distinct(Names(RuleBlocks(p, s, source)))
  {
    match p
    case ObservationResultStatement => ObservationNamesDistinct(s, source);
    case ClinicalSituationStatement => SituationNamesDistinct(s, source);
    case ClinicalProcedureStatement => ProcedureNamesDistinct(s, source);
  }
}
