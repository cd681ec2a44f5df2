/** The two SPARQL SELECT templates of the search methods, character for
    character as the source writes them.  Each `{` of the query text is an
    `Open` piece and each placeholder a `Slot`, so that the remaining text
    pieces are free of `{`.  The SPARQL itself (regular-expression filters,
    `UNION` branches, the `SUM` of the branch weights) is evaluated by the
    remote endpoint and is opaque here. */
module Templates {
  import opened QueryTemplate

  function Indent(n: nat): (r: seq<Plain>)
    ensures |r| == n && forall i :: 0 <= i < n ==> r[i] == ' '
  {
    if n == 0 then [] else [' '] + Indent(n - 1)
  }

  /** One line of the template: indentation, content, newline. */
  function Line(indent: nat, content: seq<Plain>): seq<Plain>
  {
    Indent(indent) + content + "\n"
  }

  // Fragments of SPARQL that the two queries are written from.

  const SkosPrefix: seq<Plain> := "PREFIX skos: <http://" + "www.w3.org/2004/02/skos/core#>"
  const WeightedProjection: seq<Plain> := "SELECT DISTINCT ?sys ?g ?uri " + "?pl (SUM(?w) AS ?weight)"
  const PreflabelProjection: seq<Plain> := "SELECT DISTINCT ?sys ?cs ?uri " + "?pl (SUM(?w) AS ?weight)"
  const ExactMatchComment: seq<Plain> := "  # exact match on a " + "prefLabel always wins\n"
  const ConceptPattern: seq<Plain> := "?uri a skos:Concept ;"
  const PrefLabelLast: seq<Plain> := "skos:prefLabel ?pl ."
  const PrefLabelPattern: seq<Plain> := "skos:prefLabel ?pl ;"
  const AltLabelPattern: seq<Plain> := "skos:altLabel ?al ;"
  const HiddenLabelPattern: seq<Plain> := "skos:hiddenLabel ?hl ;"
  const DefinitionPattern: seq<Plain> := "skos:definition ?d ;"
  const SchemePattern: seq<Plain> := "skos:inScheme|" + "skos:topConceptOf|" + "^skos:hasTopConcept ?cs ."
  const ExactWeight: seq<Plain> := "BIND (50 AS ?w)"
  const PrefLabelWeight: seq<Plain> := "BIND (10 AS ?w)"
  const LabelWeight: seq<Plain> := "BIND (5 AS ?w)"
  const DefinitionWeight: seq<Plain> := "BIND (1 AS ?w)"
  const ExactPrefLabelFilter: seq<Plain> := "FILTER REGEX(?pl, \"^"
  const PrefLabelFilter: seq<Plain> := "FILTER REGEX(?pl, \""
  const AltLabelFilter: seq<Plain> := "FILTER REGEX(?al, \""
  const HiddenLabelFilter: seq<Plain> := "FILTER REGEX(?hl, \""
  const DefinitionFilter: seq<Plain> := "FILTER REGEX(?d, \""
  const ExactFilterEnd: seq<Plain> := "$\", \"i\")\n"
  const FilterEnd: seq<Plain> := "\", \"i\")\n"
  const WeightedGrouping: seq<Plain> := "GROUP BY ?g ?uri ?pl ?sys"
  const PreflabelGrouping: seq<Plain> := "GROUP BY ?cs ?uri ?pl ?sys"
  const SysBindingEnd: seq<Plain> := "> AS ?sys)\n"
  const SysBindingStart: seq<Plain> := "BIND (<"

  /** Prefix, projection with the summed weight, and `WHERE` */
  const WeightedPrologue: seq<Plain> :=
    "\n"
    + Line(12, SkosPrefix)
    + Line(4, "")
    + Line(12, WeightedProjection)
    + Indent(12)
    + "WHERE "

  /** `GRAPH ?g` */
  const GraphOpening: seq<Plain> :=
    "\n"
    + Indent(16)
    + "GRAPH ?g "

  /** Indentation of the first branch */
  const WeightedBranchIndent: seq<Plain> :=
    "\n"
    + Indent(20)

  /** Exact prefLabel match, weight 50 */
  const WeightedExactPrefLabel: seq<Plain> :=
    ExactMatchComment
    + Line(24, ConceptPattern)
    + Line(29, PrefLabelLast)
    + Line(24, ExactWeight)
    + Indent(24)
    + ExactPrefLabelFilter

  /** End of the exact branch */
  const WeightedExactClose: seq<Plain> :=
    ExactFilterEnd
    + Line(20, "}")
    + Line(20, "UNION    ")
    + Indent(20)

  /** PrefLabel substring match, weight 10 */
  const WeightedPrefLabel: seq<Plain> :=
    "\n"
    + Line(24, ConceptPattern)
    + Line(29, PrefLabelLast)
    + Line(24, PrefLabelWeight)
    + Indent(24)
    + PrefLabelFilter

  /** End of a branch followed by `UNION` */
  const WeightedBranchClose: seq<Plain> :=
    FilterEnd
    + Line(20, "}")
    + Line(20, "UNION")
    + Indent(20)

  /** AltLabel match, weight 5 */
  const WeightedAltLabel: seq<Plain> :=
    "\n"
    + Line(24, ConceptPattern)
    + Line(29, AltLabelPattern)
    + Line(29, PrefLabelLast)
    + Line(24, LabelWeight)
    + Indent(24)
    + AltLabelFilter

  /** HiddenLabel match, weight 5 */
  const WeightedHiddenLabel: seq<Plain> :=
    "\n"
    + Line(24, ConceptPattern)
    + Line(29, HiddenLabelPattern)
    + Line(29, PrefLabelLast)
    + Line(24, LabelWeight)
    + Indent(24)
    + HiddenLabelFilter

  /** Definition match, weight 1 */
  const WeightedDefinition: seq<Plain> :=
    "\n"
    + Line(24, ConceptPattern)
    + Line(29, DefinitionPattern)
    + Line(29, PrefLabelLast)
    + Line(24, DefinitionWeight)
    + Indent(24)
    + DefinitionFilter

  /** End of the last branch and of the graph pattern */
  const WeightedGraphClose: seq<Plain> :=
    FilterEnd
    + Line(20, "}")
    + Line(16, "}")
    + Line(4, "")
    + Indent(16)
    + SysBindingStart

  /** Grouping */
  const WeightedEpilogue: seq<Plain> :=
    SysBindingEnd
    + Line(12, "}")
    + Line(12, WeightedGrouping)
    + Indent(12)

  /** Prefix, projection with the summed weight, and `WHERE` */
  const PreflabelPrologue: seq<Plain> :=
    "\n"
    + Line(12, SkosPrefix)
    + Line(4, "")
    + Line(12, PreflabelProjection)
    + Indent(12)
    + "WHERE "

  /** Indentation of the first branch */
  const PreflabelBranchIndent: seq<Plain> :=
    "\n"
    + Indent(16)

  /** Exact prefLabel match within a scheme, weight 50 */
  const PreflabelExact: seq<Plain> :=
    ExactMatchComment
    + Line(20, ConceptPattern)
    + Line(24, PrefLabelPattern)
    + Line(24, SchemePattern)
    + Line(20, ExactWeight)
    + Indent(20)
    + ExactPrefLabelFilter

  /** End of the exact branch */
  const PreflabelExactClose: seq<Plain> :=
    ExactFilterEnd
    + Line(16, "}")
    + Line(16, "UNION    ")
    + Indent(16)

  /** PrefLabel substring match within a scheme, weight 10 */
  const PreflabelSubstring: seq<Plain> :=
    "\n"
    + Line(20, ConceptPattern)
    + Line(24, PrefLabelPattern)
    + Line(24, SchemePattern)
    + Line(20, PrefLabelWeight)
    + Indent(20)
    + PrefLabelFilter

  /** End of the last branch */
  const PreflabelClose: seq<Plain> :=
    FilterEnd
    + Line(16, "}")
    + Line(4, "")
    + Indent(16)
    + SysBindingStart

  /** Grouping */
  const PreflabelEpilogue: seq<Plain> :=
    SysBindingEnd
    + Line(12, "}")
    + Line(12, PreflabelGrouping)
    + Indent(12)

  /** One `UNION` branch: its opening `{`, the triple patterns and weight up
      to the opening quote of the regular expression, the search term, and
      the text up to the next `{` or placeholder. */
  function Branch(pattern: seq<Plain>, after: seq<Plain>): Template
  {
    [Open, Text(pattern), Slot(Term), Text(after)]
  }

  /** The endpoint URL bound to `?sys`, and the text after it. */
  function EndpointBinding(after: seq<Plain>): Template
  {
    [Slot(Sys), Text(after)]
  }

  /** The query of `weighted`: five branches over prefLabel, altLabel,
      hiddenLabel and definition inside `GRAPH ?g`. */
  const WeightedTemplate: Template :=
    [Text(WeightedPrologue), Open, Text(GraphOpening), Open, Text(WeightedBranchIndent)]
    + Branch(WeightedExactPrefLabel, WeightedExactClose)
    + Branch(WeightedPrefLabel, WeightedBranchClose)
    + Branch(WeightedAltLabel, WeightedBranchClose)
    + Branch(WeightedHiddenLabel, WeightedBranchClose)
    + Branch(WeightedDefinition, WeightedGraphClose)
    + EndpointBinding(WeightedEpilogue)

  /** The query of `preflabel`: two prefLabel branches restricted to
      concepts with a known scheme. */
  const PreflabelTemplate: Template :=
    [Text(PreflabelPrologue), Open, Text(PreflabelBranchIndent)]
    + Branch(PreflabelExact, PreflabelExactClose)
    + Branch(PreflabelSubstring, PreflabelClose)
    + EndpointBinding(PreflabelEpilogue)

  /** Text that starts and ends with a character occurring in neither
      marker. */
  predicate GuardedText(s: seq<Plain>)
  {
    |s| > 0 && Guard(s[0]) && Guard(s[|s| - 1])
  }

  lemma PrologueTextsGuarded()
    ensures GuardedText(WeightedPrologue) && GuardedText(PreflabelPrologue)
    ensures GuardedText(GraphOpening)
    ensures GuardedText(WeightedBranchIndent) && GuardedText(PreflabelBranchIndent)
  {
  }

  lemma ExactBranchTextsGuarded()
    ensures GuardedText(WeightedExactPrefLabel) && GuardedText(WeightedExactClose)
    ensures GuardedText(PreflabelExact) && GuardedText(PreflabelExactClose)
  {
  }

  lemma SubstringBranchTextsGuarded()
    ensures GuardedText(WeightedPrefLabel) && GuardedText(WeightedBranchClose)
    ensures GuardedText(PreflabelSubstring) && GuardedText(PreflabelClose)
  {
  }

  lemma LabelBranchTextsGuarded()
    ensures GuardedText(WeightedAltLabel) && GuardedText(WeightedHiddenLabel)
  {
  }

  lemma ClosingTextsGuarded()
    ensures GuardedText(WeightedDefinition) && GuardedText(WeightedGraphClose)
    ensures GuardedText(WeightedEpilogue) && GuardedText(PreflabelEpilogue)
  {
  }

  lemma BranchSeparated(pattern: seq<Plain>, after: seq<Plain>)
    requires GuardedText(pattern) && GuardedText(after)
    ensures Separated(Branch(pattern, after))
  {
  }

  /** Appending a branch to a template that ends in guarded text. */
  lemma AppendBranch(t: Template, pattern: seq<Plain>, after: seq<Plain>)
    requires Separated(t) && |t| > 0 && EndsGuarded(t[|t| - 1])
    requires GuardedText(pattern) && GuardedText(after)
    ensures Separated(t + Branch(pattern, after))
    ensures EndsGuarded((t + Branch(pattern, after))[|t| + 3])
  {
  }

  /** Every `{` and placeholder of the `weighted` query sits between text
      that cannot extend it into a marker. */
  lemma WeightedTemplateSeparated()
    ensures Separated(WeightedTemplate)
  {
    PrologueTextsGuarded();
    ExactBranchTextsGuarded();
    SubstringBranchTextsGuarded();
    LabelBranchTextsGuarded();
    ClosingTextsGuarded();
    var t := [Text(WeightedPrologue), Open, Text(GraphOpening), Open, Text(WeightedBranchIndent)];
    AppendBranch(t, WeightedExactPrefLabel, WeightedExactClose);
    t := t + Branch(WeightedExactPrefLabel, WeightedExactClose);
    AppendBranch(t, WeightedPrefLabel, WeightedBranchClose);
    t := t + Branch(WeightedPrefLabel, WeightedBranchClose);
    AppendBranch(t, WeightedAltLabel, WeightedBranchClose);
    t := t + Branch(WeightedAltLabel, WeightedBranchClose);
    AppendBranch(t, WeightedHiddenLabel, WeightedBranchClose);
    t := t + Branch(WeightedHiddenLabel, WeightedBranchClose);
    AppendBranch(t, WeightedDefinition, WeightedGraphClose);
    t := t + Branch(WeightedDefinition, WeightedGraphClose);
    SeparatedConcat(t, EndpointBinding(WeightedEpilogue));
  }

  /** The same for the `preflabel` query. */
  lemma PreflabelTemplateSeparated()
    ensures Separated(PreflabelTemplate)
  {
    PrologueTextsGuarded();
    ExactBranchTextsGuarded();
    SubstringBranchTextsGuarded();
    ClosingTextsGuarded();
    var t := [Text(PreflabelPrologue), Open, Text(PreflabelBranchIndent)];
    AppendBranch(t, PreflabelExact, PreflabelExactClose);
    t := t + Branch(PreflabelExact, PreflabelExactClose);
    AppendBranch(t, PreflabelSubstring, PreflabelClose);
    t := t + Branch(PreflabelSubstring, PreflabelClose);
    SeparatedConcat(t, EndpointBinding(PreflabelEpilogue));
  }
}
