/** The shape of one YARRRML mapping block as the rule compiler writes it: a
    named block reading the CSV source, with a subject and a list of
    predicate-object clauses. Objects and subjects are plain IRIs, typed
    literals, or calls of mapping functions with named parameters. */
module Blocks {
  import opened Strings
  import opened Integers

  /** One `- parameter: … value: …` entry of a function call: the `index`-th
      value parameter, bound to a column of the CSV source. */
  datatype Param = Param(index: nat, column: string)

  /** A call of a mapping function, by its local name in the `stratifai-function`
      namespace, with its parameters in order. */
  datatype Call = Call(fn: string, params: seq<Param>)

  datatype Object =
    | Iri(iri: string)                            // `[p, iri~iri]`
    | Typed(value: string, xsdType: string)       // `[p, value, xsdType]`
    | Computed(call: Call)                        // `p: … o: - function: …`

  /** The predicates the rule compiler writes. */
  datatype Predicate =
    | A | RdfType
    | HasObservable | HasObservableValue | HasValue | IsResultOf
    | TemporalContext | SituationContext | RepresentsSituation
    | ProcedureContext | ProcedureReason | ProcedureLocation | HasInformationAboutProvider
    | RepresentsProcedure

  function PredicateIri(p: Predicate): string {
    match p
    case A => "a"
    case RdfType => "rdf:type"
    case HasObservable => "scdm:hasObservable"
    case HasObservableValue => "scdm:hasObservableValue"
    case HasValue => "btl2:hasValue"
    case IsResultOf => "scdm:isResultOf"
    case TemporalContext => "scdm:temporalContext"
    case SituationContext => "scdm:situationContext"
    case RepresentsSituation => "scdm:representsSituation"
    case ProcedureContext => "scdm:procedureContext"
    case ProcedureReason => "scdm:procedureReason"
    case ProcedureLocation => "scdm:procedureLocation"
    case HasInformationAboutProvider => "scdm:hasInformationAboutProvider"
    case RepresentsProcedure => "scdm:representsProcedure"
  }

  datatype Clause = Clause(pred: Predicate, obj: Object)

  datatype Subject = SubjectIri(iri: string) | SubjectCall(call: Call)

  datatype Block = Block(name: string, source: string, subject: Subject, clauses: seq<Clause>)

  /** A YARRRML reference to a column of the CSV source. */
  function Placeholder(column: string): string {
    "$(" + column + ")"
  }

  /** `b` states `o` under predicate `p`. */
  predicate Has(b: Block, p: Predicate, o: Object) {
    Clause(p, o) in b.clauses
  }

  /** Whatever `b` states under predicate `p` is `o`. */
  predicate Only(b: Block, p: Predicate, o: Object) {
    forall i :: 0 <= i < |b.clauses| && b.clauses[i].pred == p ==> b.clauses[i].obj == o
  }

  /** `b` states nothing under predicate `p`. */
  predicate Lacks(b: Block, p: Predicate) {
    forall i :: 0 <= i < |b.clauses| ==> b.clauses[i].pred != p
  }

  /** Some block of `blocks` has the IRI `iri` as its subject. */
  predicate Defines(blocks: seq<Block>, iri: string) {
    exists i :: 0 <= i < |blocks| && blocks[i].subject == SubjectIri(iri)
  }

  /** The predicates of a clause list, in order. */
  function Preds(cs: seq<Clause>): (ps: seq<Predicate>)
    ensures |ps| == |cs|
    ensures forall i :: 0 <= i < |cs| ==> ps[i] == cs[i].pred
  {
    seq(|cs|, i requires 0 <= i < |cs| => cs[i].pred)
  }

  lemma PredsAppend(a: seq<Clause>, b: seq<Clause>)
    ensures Preds(a + b) == Preds(a) + Preds(b)
  {
  }

  /** A block whose predicates do not include `p` lacks `p`. */
  lemma LacksByPreds(b: Block, ps: seq<Predicate>, p: Predicate)
    requires Preds(b.clauses) == ps && p !in multiset(ps)
    ensures Lacks(b, p)
  {
    forall i | 0 <= i < |b.clauses|
      ensures b.clauses[i].pred != p
    {
      assert ps[i] == b.clauses[i].pred;
    }
  }

  /** A block whose predicates are `before + [p] + after`, with `p` in neither
      part, states the object of that one clause, and nothing else, under `p`. */
  lemma OnlyAt(b: Block, before: seq<Predicate>, p: Predicate, after: seq<Predicate>, o: Object)
    requires Preds(b.clauses) == before + [p] + after
    requires p !in multiset(before) && p !in multiset(after)
    requires b.clauses[|before|] == Clause(p, o)
    ensures Has(b, p, o) && Only(b, p, o)
  {
    var ps := Preds(b.clauses);
    var k := |before|;
    assert forall i :: 0 <= i < k ==> ps[i] == before[i];
    assert forall i :: k < i < |ps| ==> ps[i] == after[i - k - 1];
  }

  /** A block whose last clause is its only one under `p`. */
  lemma OnlyLast(b: Block, before: seq<Predicate>, p: Predicate, o: Object)
    requires Preds(b.clauses) == before + [p]
    requires p !in multiset(before)
    requires b.clauses[|before|] == Clause(p, o)
    ensures Has(b, p, o) && Only(b, p, o)
  {
    var ps := Preds(b.clauses);
    assert forall i :: 0 <= i < |before| ==> ps[i] == before[i];
  }

  /** A block list defines an IRI when either of its parts does. */
  lemma DefinesAppend(a: seq<Block>, b: seq<Block>, iri: string)
    ensures Defines(a + b, iri) <==> Defines(a, iri) || Defines(b, iri)
  {
    if Defines(a + b, iri) {
      var i :| 0 <= i < |a + b| && (a + b)[i].subject == SubjectIri(iri);
      if i >= |a| {
        assert b[i - |a|] == (a + b)[i];
      }
    }
    if Defines(b, iri) {
      var i :| 0 <= i < |b| && b[i].subject == SubjectIri(iri);
      assert (a + b)[|a| + i] == b[i];
    }
    if Defines(a, iri) {
      var i :| 0 <= i < |a| && a[i].subject == SubjectIri(iri);
      assert (a + b)[i] == a[i];
    }
  }

  // ----------------------------------------------------------------- rendering
  // The text layout follows the rule compiler's templates; indentation is
  // indicative, the order and content of every entry is what matters.

  /** `grel:valueParam`, `grel:valueParam1`, `grel:valueParam2`, … */
  function ParamName(index: nat): string {
    "grel:valueParam" + (if index == 0 then "" else Decimal(index))
  }

  function RenderParams(ps: seq<Param>): string {
    if |ps| == 0 then ""
    else
      RenderParams(ps[..|ps| - 1])
      + "                    - parameter: " + ParamName(ps[|ps| - 1].index) + "\n"
      + "                      value: " + Placeholder(ps[|ps| - 1].column) + "\n"
  }

  function RenderCall(c: Call): string {
    "                  - function: stratifai-function:" + c.fn + "\n"
    + "                    parameters:\n"
    + RenderParams(c.params)
    + "                    type: iri\n"
  }

  function RenderClause(c: Clause): string {
    match c.obj
    case Iri(iri) => "                - [" + PredicateIri(c.pred) + ", " + iri + "~iri]\n"
    case Typed(v, dt) => "                - [" + PredicateIri(c.pred) + ", " + v + ", " + dt + "]\n"
    case Computed(call) => "                - p: " + PredicateIri(c.pred) + "\n                  o:\n" + RenderCall(call)
  }

  function RenderClauses(cs: seq<Clause>): string {
    if |cs| == 0 then "" else RenderClauses(cs[..|cs| - 1]) + RenderClause(cs[|cs| - 1])
  }

  function RenderSubject(s: Subject): string {
    match s
    case SubjectIri(iri) => "            s: " + iri + "\n"
    case SubjectCall(call) => "            s:\n" + RenderCall(call)
  }

  /** The line that opens a block: its name. */
  function TitleLine(b: Block): string {
    "\n        " + b.name + ":\n"
  }

  /** The text of one block; it opens with the block's name on a line of its own,
      so it is never empty. */
  function Render(b: Block): (text: string)
    ensures |TitleLine(b)| <= |text| && text[..|TitleLine(b)|] == TitleLine(b)
    ensures |text| > 0
  {
    var text := TitleLine(b)
      + "            sources:\n"
      + "                - ['" + b.source + "~csv']\n"
      + RenderSubject(b.subject)
      + "            po:\n"
      + RenderClauses(b.clauses);
    assert text == TitleLine(b) + text[|TitleLine(b)|..];
    text
  }
}
