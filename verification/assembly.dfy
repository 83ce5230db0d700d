/** `generate_rules` and `write_output`: the rule rows are read in order, each
    stripped field id is compiled once (its first row wins), the non-empty rule
    texts are kept in first-seen order, and the document is the template
    followed by the rules joined with newlines. */
module Assembly {
  import opened Strings
  import opened Seqs
  import opened Rules
  import opened Generation

  /** The de-duplication key of a rule row: its stripped field id. */
  function RowKey(r: RuleRow): string {
    Strip(r.fieldId)
  }

  function Keys(rows: seq<RuleRow>): (ks: seq<string>)
    ensures |ks| == |rows|
    ensures forall i :: 0 <= i < |rows| ==> ks[i] == RowKey(rows[i])
  {
    seq(|rows|, i requires 0 <= i < |rows| => RowKey(rows[i]))
  }

  lemma KeysSnoc(rows: seq<RuleRow>, r: RuleRow)
    ensures Keys(rows + [r]) == Keys(rows) + [RowKey(r)]
  {
  }

  lemma KeysLast(rows: seq<RuleRow>)
    requires |rows| > 0
    ensures Keys(rows) == Keys(rows[..|rows| - 1]) + [RowKey(rows[|rows| - 1])]
  {
    assert rows == rows[..|rows| - 1] + [rows[|rows| - 1]];
    KeysSnoc(rows[..|rows| - 1], rows[|rows| - 1]);
  }

  // ------------------------------------------------------------ de-duplication

  /** The rows the loop of `generate_rules` hands to `generate_rule`: a row is
      skipped exactly when an earlier row has the same key, whatever became of
      that earlier row (a row of an unknown pattern still claims its key). */
  function FirstOccurrences(rows: seq<RuleRow>): (kept: seq<RuleRow>)
    ensures |kept| <= |rows|
  {
    if |rows| == 0 then []
    else
      var init := rows[..|rows| - 1];
      var r := rows[|rows| - 1];
      if RowKey(r) in Keys(init) then FirstOccurrences(init) else FirstOccurrences(init) + [r]
  }

  /** The keys of the kept rows are the keys of all rows, each once, in order of
      first appearance. */
  lemma {:induction false} FirstOccurrencesKeys(rows: seq<RuleRow>)
    ensures Keys(FirstOccurrences(rows)) == Unique(Keys(rows))
  {
    if |rows| > 0 {
      var init := rows[..|rows| - 1];
      var r := rows[|rows| - 1];
      FirstOccurrencesKeys(init);
      KeysLast(rows);
      UniqueSnoc(Keys(init), RowKey(r));
      if RowKey(r) !in Keys(init) {
        KeysSnoc(FirstOccurrences(init), r);
      }
    }
  }

  /** Every kept row is the first row of `rows` with its key: later rows with
      the same field id never replace it. */
  lemma {:induction false} FirstOccurrenceWins(rows: seq<RuleRow>)
    ensures forall j :: 0 <= j < |FirstOccurrences(rows)| ==>
              && RowKey(FirstOccurrences(rows)[j]) in Keys(rows)
              && FirstOccurrences(rows)[j] == rows[FirstIndex(Keys(rows), RowKey(FirstOccurrences(rows)[j]))]
  {
    if |rows| > 0 {
      var init := rows[..|rows| - 1];
      var r := rows[|rows| - 1];
      FirstOccurrenceWins(init);
      var ks := Keys(init);
      assert Keys(rows) == ks + [RowKey(r)] by {
        assert rows == init + [r];
        KeysSnoc(init, r);
      }
      var kept := FirstOccurrences(init);
      forall j | 0 <= j < |kept|
        ensures RowKey(kept[j]) in Keys(rows)
        ensures kept[j] == rows[FirstIndex(Keys(rows), RowKey(kept[j]))]
      {
        FirstIndexSnoc(ks, RowKey(r), RowKey(kept[j]));
      }
      if RowKey(r) !in ks {
        FirstIndexIsUnique(Keys(rows), RowKey(r), |init|);
      }
    }
  }

  /** A second row with the same stripped field id is skipped. */
  lemma DuplicateSkipped(a: RuleRow, b: RuleRow)
    requires RowKey(a) == RowKey(b)
    ensures FirstOccurrences([a, b]) == [a]
  {
    assert [a, b][..1] == [a];
    assert [a][..0] == [];
  }

  /** Rows with different stripped field ids are both kept, in order. */
  lemma DistinctKept(a: RuleRow, b: RuleRow)
    requires RowKey(a) != RowKey(b)
    ensures FirstOccurrences([a, b]) == [a, b]
  {
    assert [a, b][..1] == [a];
    assert [a][..0] == [];
  }

  // ------------------------------------------------------------------- rules

  /** `generate_rule` with the dispatch table and the CSV name fixed: the
      function `generate_rules` applies to every row it keeps. */
  function CompileRow(source: string): RuleRow -> string {
    r => GenerateRule(r, source)
  }

  /** What `compile` returns for each kept row, in order. */
  function Texts(kept: seq<RuleRow>, compile: RuleRow -> string): (texts: seq<string>)
    ensures |texts| == |kept|
    ensures forall i :: 0 <= i < |kept| ==> texts[i] == compile(kept[i])
  {
    seq(|kept|, i requires 0 <= i < |kept| => compile(kept[i]))
  }

  lemma TextsSnoc(kept: seq<RuleRow>, r: RuleRow, compile: RuleRow -> string)
    ensures Texts(kept + [r], compile) == Texts(kept, compile) + [compile(r)]
  {
  }

  /** The texts that `if rule:` lets through, in order. */
  function NonEmpty(texts: seq<string>): (kept: seq<string>)
    ensures |kept| <= |texts|
    ensures forall i :: 0 <= i < |kept| ==> kept[i] != "" && kept[i] in texts
  {
    if |texts| == 0 then []
    else
      var t := texts[|texts| - 1];
      var init := texts[..|texts| - 1];
      assert forall x :: x in init ==> x in texts;
      NonEmpty(init) + (if t == "" then [] else [t])
  }

  lemma NonEmptySnoc(texts: seq<string>, t: string)
    ensures NonEmpty(texts + [t]) == NonEmpty(texts) + (if t == "" then [] else [t])
  {
    assert (texts + [t])[..|texts|] == texts;
  }

  /** The rule texts `generate_rules` collects from the kept rows. */
  function Collected(kept: seq<RuleRow>, compile: RuleRow -> string): seq<string> {
    NonEmpty(Texts(kept, compile))
  }

  /** Compiling one more row appends its rule, unless that rule is empty. */
  lemma CollectedSnoc(kept: seq<RuleRow>, r: RuleRow, compile: RuleRow -> string)
    ensures compile(r) == "" ==> Collected(kept + [r], compile) == Collected(kept, compile)
    ensures compile(r) != "" ==> Collected(kept + [r], compile) == Collected(kept, compile) + [compile(r)]
  {
    TextsSnoc(kept, r, compile);
    NonEmptySnoc(Texts(kept, compile), compile(r));
  }

  lemma CollectedLast(kept: seq<RuleRow>, compile: RuleRow -> string)
    requires |kept| > 0
    ensures var r := kept[|kept| - 1];
            Collected(kept, compile) ==
              Collected(kept[..|kept| - 1], compile) + (if compile(r) == "" then [] else [compile(r)])
  {
    assert kept == kept[..|kept| - 1] + [kept[|kept| - 1]];
    CollectedSnoc(kept[..|kept| - 1], kept[|kept| - 1], compile);
  }

  /** The rows of a known pattern type, in order. */
  predicate KnownRow(r: RuleRow) {
    ParsePattern(r.patternType).Some?
  }

  function Known(kept: seq<RuleRow>): (known: seq<RuleRow>)
    ensures |known| <= |kept|
    ensures forall i :: 0 <= i < |known| ==> KnownRow(known[i]) && known[i] in kept
  {
    if |kept| == 0 then []
    else
      var r := kept[|kept| - 1];
      var init := kept[..|kept| - 1];
      assert forall x :: x in init ==> x in kept;
      Known(init) + (if KnownRow(r) then [r] else [])
  }

  /** With a compiler that yields the empty text exactly for rows of an unknown
      pattern, the collected texts are exactly those of the known rows, in order. */
  lemma {:induction false} CollectedOfKnown(kept: seq<RuleRow>, compile: RuleRow -> string)
    requires forall r :: compile(r) == "" <==> !KnownRow(r)
    ensures Collected(kept, compile) == Texts(Known(kept), compile)
  {
    if |kept| > 0 {
      var init := kept[..|kept| - 1];
      var r := kept[|kept| - 1];
      CollectedOfKnown(init, compile);
      CollectedLast(kept, compile);
      if KnownRow(r) {
        TextsSnoc(Known(init), r, compile);
      }
    }
  }

  /** `generate_rule` yields the empty text exactly for an unknown pattern type. */
  lemma CompileRowEmpty(source: string)
    ensures forall r :: CompileRow(source)(r) == "" <==> !KnownRow(r)
  {
    forall r
      ensures CompileRow(source)(r) == "" <==> !KnownRow(r)
    {
      var text := GenerateRule(r, source);
      assert text == "" <==> ParsePattern(r.patternType).None?;
    }
  }

  /** The collected rules are exactly the rules of the rows of a known pattern,
      in order: a rule is lost only to an unknown pattern type, and every rule
      of a known pattern is kept. */
  lemma CollectedKnown(kept: seq<RuleRow>, source: string)
    ensures Collected(kept, CompileRow(source)) == Texts(Known(kept), CompileRow(source))
  {
    CompileRowEmpty(source);
    CollectedOfKnown(kept, CompileRow(source));
  }

  /** A row of an unknown pattern still claims its field id: a later row with
      the same id is skipped even when its pattern is known, and no rule results. */
  lemma UnknownPatternShadows(a: RuleRow, b: RuleRow, source: string)
    requires RowKey(a) == RowKey(b) && !KnownRow(a)
    ensures Collected(FirstOccurrences([a, b]), CompileRow(source)) == []
  {
    DuplicateSkipped(a, b);
    CompileRowEmpty(source);
    assert [] + [a] == [a];
    CollectedSnoc([], a, CompileRow(source));
  }

  /** The loop of `generate_rules` over rows already read, with `compile` for
      `generate_rule`: the field ids seen so far decide which rows are compiled,
      and only non-empty texts are kept. */
  method GenerateRules(rows: seq<RuleRow>, compile: RuleRow -> string) returns (rules: seq<string>)
    ensures rules == Collected(FirstOccurrences(rows), compile)
  {
    rules := [];
    var seen: set<string> := {};
    var i := 0;
    while i < |rows|
      invariant 0 <= i <= |rows|
      invariant forall k :: k in seen <==> k in Keys(rows[..i])
      invariant rules == Collected(FirstOccurrences(rows[..i]), compile)
    {
      var r := rows[i];
      FirstOccurrencesStep(rows, i);
      var fieldId := Strip(r.fieldId);
      if fieldId in seen {
        i := i + 1;
        continue;
      }
      seen := seen + {fieldId};
      var rule := compile(r);
      CollectedSnoc(FirstOccurrences(rows[..i]), r, compile);
      if rule != "" {
        rules := rules + [rule];
      }
      i := i + 1;
    }
    assert rows[..i] == rows;
  }

  /** Reading row `i` either skips it, when its key was seen, or keeps it. */
  lemma FirstOccurrencesStep(rows: seq<RuleRow>, i: nat)
    requires i < |rows|
    ensures Keys(rows[..i + 1]) == Keys(rows[..i]) + [RowKey(rows[i])]
    ensures FirstOccurrences(rows[..i + 1]) ==
              if RowKey(rows[i]) in Keys(rows[..i]) then FirstOccurrences(rows[..i])
              else FirstOccurrences(rows[..i]) + [rows[i]]
  {
    assert rows[..i + 1] == rows[..i] + [rows[i]];
    assert rows[..i + 1][..i] == rows[..i];
    KeysSnoc(rows[..i], rows[i]);
  }

  // ---------------------------------------------------------------- document

  /** The text `write_output` writes: the template, then the rules joined by
      newlines. */
  function Document(template: string, rules: seq<string>): (doc: string)
    ensures |template| <= |doc| && doc[..|template|] == template
    ensures |rules| == 0 ==> doc == template
    ensures |rules| > 0 ==> |doc| == |template| + TotalLength(rules) + |rules| - 1
    ensures |rules| == 1 ==> doc == template + rules[0]
    ensures doc[|template|..] == Join(rules, "\n")
  {
    var doc := template + Join(rules, "\n");
    assert doc[..|template|] == template;
    doc
  }

  /** Rule `k` stands in the document right after the template, the rules
      before it and one newline each; a newline follows it unless it is the last. */
  lemma DocumentRuleAt(template: string, rules: seq<string>, k: nat)
    requires k < |rules|
    ensures var at := |template| + PartOffset(rules, "\n", k);
            && at + |rules[k]| <= |Document(template, rules)|
            && Document(template, rules)[at..at + |rules[k]|] == rules[k]
            && (k + 1 < |rules| ==> at + |rules[k]| < |Document(template, rules)|
                                    && Document(template, rules)[at + |rules[k]|] == '\n')
  {
    var doc := Document(template, rules);
    var j := Join(rules, "\n");
    assert doc == template + j;
    JoinPartAt(rules, "\n", k);
    var o := PartOffset(rules, "\n", k);
    assert doc[|template| + o..|template| + o + |rules[k]|] == j[o..o + |rules[k]|];
    if k + 1 < |rules| {
      JoinSeparatorAt(rules, "\n", k);
      assert j[o + |rules[k]|..PartOffset(rules, "\n", k + 1)] == "\n";
      assert j[o + |rules[k]|] == '\n';
    }
  }

  /** One more rule extends the document by a newline and that rule. */
  lemma DocumentAppend(template: string, rules: seq<string>, rule: string)
    requires |rules| > 0
    ensures Document(template, rules + [rule]) == Document(template, rules) + "\n" + rule
  {
    JoinSnoc(rules, rule, "\n");
  }

  /** The whole of `generate_rules` and `write_output`. */
  function Compile(template: string, rows: seq<RuleRow>, source: string): (doc: string)
    ensures |template| <= |doc| && doc[..|template|] == template
    ensures |rows| == 0 ==> doc == template
  {
    Document(template, Collected(FirstOccurrences(rows), CompileRow(source)))
  }

  /** The written document is the template followed by the rules of the first
      row of each field id whose pattern type is known, in reading order. */
  lemma CompileDocument(template: string, rows: seq<RuleRow>, source: string)
    ensures Compile(template, rows, source) == Document(template, Texts(Known(FirstOccurrences(rows)), CompileRow(source)))
  {
    CollectedKnown(FirstOccurrences(rows), source);
  }
}
