/** The two query builders fill a fixed SPARQL text that carries the
    placeholders `{sys}` (the endpoint URL) and `{term}` (the search term), by
    `q.replace("{sys}", endpoint).replace("{term}", term)`.  A template is kept
    here as a sequence of pieces so that where the placeholders sit, and what
    stands next to them, is explicit. */
module QueryTemplate {
  import opened Replace

  datatype Placeholder = Sys | Term

  function Marker(p: Placeholder): string
  {
    match p
    case Sys => "{sys}"
    case Term => "{term}"
  }

  /** Any character except `{`, the first character of both markers. */
  type Plain = c: char | c != '{' witness ' '

  /** Literal text, a literal `{`, or a placeholder. */
  datatype Piece = Text(plain: seq<Plain>) | Open | Slot(slot: Placeholder)

  type Template = seq<Piece>

  function PieceString(x: Piece, sysValue: string, termValue: string): string
  {
    match x
    case Text(s) => s
    case Open => "{"
    case Slot(Sys) => sysValue
    case Slot(Term) => termValue
  }

  /** The template with each placeholder slot filled by the given text. */
  function Expand(t: Template, sysValue: string, termValue: string): string
  {
    if |t| == 0 then "" else PieceString(t[0], sysValue, termValue) + Expand(t[1..], sysValue, termValue)
  }

  /** The query text as written in the source, markers included. */
  function Source(t: Template): string
  {
    Expand(t, Marker(Sys), Marker(Term))
  }

  /** The two chained `str.replace` calls of the builders, `{sys}` first. */
  function Render(t: Template, endpoint: string, term: string): string
  {
    ReplaceAll(ReplaceAll(Source(t), Marker(Sys), endpoint), Marker(Term), term)
  }

  /** A character that occurs in neither marker. */
  predicate Guard(c: char)
  {
    c !in Marker(Sys) && c !in Marker(Term)
  }

  predicate StartsGuarded(x: Piece)
  {
    x.Text? && |x.plain| > 0 && Guard(x.plain[0])
  }

  predicate EndsGuarded(x: Piece)
  {
    x.Text? && |x.plain| > 0 && Guard(x.plain[|x.plain| - 1])
  }

  /** A `{` or a slot may only stand next to text, and the character of
      that text next to it must occur in neither marker.  Two texts may
      always stand together: neither contains a `{`. */
  predicate Joinable(x: Piece, y: Piece)
  {
    (x.Text? || StartsGuarded(y)) && (y.Text? || EndsGuarded(x))
  }

  predicate Separated(t: Template)
  {
    forall i :: 0 <= i < |t| - 1 ==> Joinable(t[i], t[i + 1])
  }

  lemma SeparatedTail(t: Template)
    requires |t| > 0 && Separated(t)
    ensures Separated(t[1..])
  {
  }

  /** Two separated templates stay separated when joined, if the pieces that
      meet are joinable. */
  lemma SeparatedConcat(a: Template, b: Template)
    requires Separated(a) && Separated(b)
    requires |a| > 0 && |b| > 0 ==> Joinable(a[|a| - 1], b[0])
    ensures Separated(a + b)
  {
  }

  /** No marker occurrence crosses the join between the first piece and the
      rest of the expansion, whatever the slots are filled with. */
  lemma {:induction false} FirstJoinSafe(t: Template, a: string, b: string, p: Placeholder)
    requires |t| > 0 && Separated(t)
    ensures !Straddles(PieceString(t[0], a, b), Expand(t[1..], a, b), Marker(p))
  {
    var head, tail, m := PieceString(t[0], a, b), Expand(t[1..], a, b), Marker(p);
    if t[0].Text? {
      assert forall c :: c in t[0].plain ==> c != '{';
      NoStraddleAfterFree(head, tail, m);
    } else if |t| > 1 {
      assert StartsGuarded(t[1]);
      assert tail == t[1].plain + Expand(t[2..], a, b) by {
        assert t[1..][1..] == t[2..];
      }
      assert tail[0] == t[1].plain[0];
      NoStraddleAtGuard(head, tail, m);
    } else {
      assert tail == [];
      assert head + tail == head;
    }
  }

  /** Text pieces and literal braces never contain a marker. */
  lemma FixedPieceClean(x: Piece, a: string, b: string, p: Placeholder)
    requires !x.Slot?
    ensures !Contains(PieceString(x, a, b), Marker(p))
  {
    if x.Text? {
      assert forall c :: c in x.plain ==> c != '{';
    }
    AbsentWithoutFirst(PieceString(x, a, b), Marker(p));
  }

  /** Replacing one marker in an expansion is the same as replacing it inside
      the slot fillings: the fixed text holds no marker and no occurrence can
      cross a join. */
  lemma {:induction false} ExpandReplace(t: Template, a: string, b: string, p: Placeholder, rep: string)
    requires Separated(t)
    ensures ReplaceAll(Expand(t, a, b), Marker(p), rep)
            == Expand(t, ReplaceAll(a, Marker(p), rep), ReplaceAll(b, Marker(p), rep))
    decreases |t|
  {
    var m := Marker(p);
    var a', b' := ReplaceAll(a, m, rep), ReplaceAll(b, m, rep);
    if |t| > 0 {
      var head, tail := PieceString(t[0], a, b), Expand(t[1..], a, b);
      FirstJoinSafe(t, a, b, p);
      ReplaceSplit(head, tail, m, rep);
      SeparatedTail(t);
      ExpandReplace(t[1..], a, b, p, rep);
      if !t[0].Slot? {
        FixedPieceClean(t[0], a, b, p);
        ReplaceAbsent(head, m, rep);
      }
      assert ReplaceAll(head, m, rep) == PieceString(t[0], a', b');
    }
  }

  /** An expansion holds a marker only if a slot filling brings it in. */
  lemma {:induction false} ExpandClean(t: Template, a: string, b: string, p: Placeholder)
    requires Separated(t)
    requires !Contains(a, Marker(p)) && !Contains(b, Marker(p))
    ensures !Contains(Expand(t, a, b), Marker(p))
    decreases |t|
  {
    if |t| > 0 {
      var head, tail := PieceString(t[0], a, b), Expand(t[1..], a, b);
      FirstJoinSafe(t, a, b, p);
      SeparatedTail(t);
      ExpandClean(t[1..], a, b, p);
      if !t[0].Slot? {
        FixedPieceClean(t[0], a, b, p);
      }
      if Contains(head + tail, Marker(p)) {
        ContainsConcat(head, tail, Marker(p));
      }
    }
  }

  lemma TermMarkerHasNoSysMarker(rep: string)
    ensures ReplaceAll(Marker(Term), Marker(Sys), rep) == Marker(Term)
  {
  }

  /** What the chained replacement produces: the endpoint goes into the
      `{sys}` slot after any `{term}` inside it has itself been replaced by
      the term (it is substituted first, so the second pass scans it), while
      the term goes into the `{term}` slot untouched (it is substituted last,
      so a `{sys}` inside it survives). */
  lemma RenderFills(t: Template, endpoint: string, term: string)
    requires Separated(t)
    ensures Render(t, endpoint, term)
            == Expand(t, ReplaceAll(endpoint, Marker(Term), term), term)
  {
    ExpandReplace(t, Marker(Sys), Marker(Term), Sys, endpoint);
    ReplaceWhole(Marker(Sys), endpoint);
    TermMarkerHasNoSysMarker(endpoint);
    ExpandReplace(t, endpoint, Marker(Term), Term, term);
    ReplaceWhole(Marker(Term), term);
  }

  /** When neither the endpoint nor the term contains a marker, the rendered
      query is the template with its slots filled and no marker is left. */
  lemma RenderLeavesNoMarker(t: Template, endpoint: string, term: string)
    requires Separated(t)
    requires !Contains(endpoint, Marker(Sys)) && !Contains(endpoint, Marker(Term))
    requires !Contains(term, Marker(Sys)) && !Contains(term, Marker(Term))
    ensures Render(t, endpoint, term) == Expand(t, endpoint, term)
    ensures !Contains(Render(t, endpoint, term), Marker(Sys))
    ensures !Contains(Render(t, endpoint, term), Marker(Term))
  {
    RenderFills(t, endpoint, term);
    ReplaceAbsent(endpoint, Marker(Term), term);
    ExpandClean(t, endpoint, term, Sys);
    ExpandClean(t, endpoint, term, Term);
  }

  /** The order is observable: an endpoint that is literally `{term}` ends
      up holding the search term. */
  lemma SysReplacedBeforeTerm(t: Template, term: string)
    requires Separated(t)
    ensures Render(t, Marker(Term), term) == Expand(t, term, term)
  {
    RenderFills(t, Marker(Term), term);
    ReplaceWhole(Marker(Term), term);
  }
}
