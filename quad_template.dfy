/**
 * Quad templates: quad patterns whose unset positions are wildcards. They
 * are only used to select quads, never stored.
 */
module QuadTemplates {
  import opened Wrappers
  import opened Errors
  import opened Terms
  import opened Quads

  /** None is a wildcard. The graph position is never the default graph. */
  datatype QuadTemplate = QuadTemplate(subject: Option<Term>, pred: Option<Term>, obj: Option<Term>, graph: Option<Term>)

  /** The argument of QuadTemplate::equals: another template or any term. */
  datatype Operand = TemplateOperand(template: QuadTemplate) | TermOperand(term: Term)

  /**
   * new QuadTemplate(...): all four positions unset throws, a literal
   * subject throws, and a default graph is stored as a wildcard. The
   * all-unset test looks at the graph before that normalisation.
   */
  function MakeTemplate(subject: Option<Term>, pred: Option<Term>, obj: Option<Term>, graph: Option<Term>): (r: Result<QuadTemplate, Error>)
    requires pred.Some? ==> pred.value.NamedNode?
    requires graph.Some? ==> IsGraphTerm(graph.value)
    ensures r == Failure(EmptyTemplate) <==> subject.None? && pred.None? && obj.None? && graph.None?
    ensures r == Failure(LiteralSubject) <==> subject.Some? && subject.value.Literal?
    ensures r.Success? <==> !(subject.None? && pred.None? && obj.None? && graph.None?) &&
                            !(subject.Some? && subject.value.Literal?)
    ensures r.Success? ==> r.value.subject == subject && r.value.pred == pred && r.value.obj == obj
    ensures r.Success? ==> r.value.graph == (if graph == Some(DefaultGraph) then None else graph)
    ensures r.Success? ==> WellFormedTemplate(r.value)
  {
    if subject.None? && pred.None? && obj.None? && graph.None? then Failure(EmptyTemplate)
    else if subject.Some? && subject.value.Literal? then Failure(LiteralSubject)
    else Success(QuadTemplate(subject, pred, obj, if graph == Some(DefaultGraph) then None else graph))
  }

  /** One position of template-vs-quad matching: a wildcard, or equal to the quad's term. */
  predicate SlotMatches(slot: Option<Term>, t: Term)
  {
    slot.None? || TermEquals(slot.value, t)
  }

  /** One position of template-vs-template equality: both unset, or both set and equal. */
  predicate SlotsEqual(a: Option<Term>, b: Option<Term>)
  {
    (a.None? && b.None?) || (a.Some? && b.Some? && TermEquals(a.value, b.value))
  }

  /** The template matches the quad: every set position equals the quad's. */
  predicate Matches(t: QuadTemplate, q: Quad)
  {
    SlotMatches(t.subject, q.subject) && SlotMatches(t.pred, q.pred) &&
    SlotMatches(t.obj, q.obj) && SlotMatches(t.graph, q.graph)
  }

  /** Template-vs-template equality, position by position. */
  predicate SameTemplate(a: QuadTemplate, b: QuadTemplate)
  {
    SlotsEqual(a.subject, b.subject) && SlotsEqual(a.pred, b.pred) &&
    SlotsEqual(a.obj, b.obj) && SlotsEqual(a.graph, b.graph)
  }

  /** QuadTemplate::equals: template equality, quad matching, and false for any other term. */
  predicate Equals(t: QuadTemplate, other: Operand)
  {
    match other
    case TemplateOperand(u) => SameTemplate(t, u)
    case TermOperand(QuadTerm(q)) => Matches(t, q)
    case TermOperand(_) => false
  }

  /** Template equality is exactly equality of the four slots. */
  lemma SameTemplateIsEquality(a: QuadTemplate, b: QuadTemplate)
    ensures SameTemplate(a, b) <==> a == b
  {
  }

  /**
   * A template matches exactly the quads that agree with it on its set
   * positions; a template that sets nothing would match every quad.
   */
  lemma MatchesIffAgreesOnSetPositions(t: QuadTemplate, q: Quad)
    ensures Matches(t, q) <==>
      (t.subject.Some? ==> t.subject.value == q.subject) && (t.pred.Some? ==> t.pred.value == q.pred) &&
      (t.obj.Some? ==> t.obj.value == q.obj) && (t.graph.Some? ==> t.graph.value == q.graph)
  {
  }

  /**
   * The template made from all four positions of a well-formed quad selects
   * that quad only, except that a default-graph quad's template leaves the
   * graph open and so also selects the same triple in every other graph.
   */
  lemma TemplateOfQuadSelects(q: Quad, x: Quad)
    requires WellFormedQuad(q)
    ensures MakeTemplate(Some(q.subject), Some(q.pred), Some(q.obj), Some(q.graph)).Success?
    ensures Matches(MakeTemplate(Some(q.subject), Some(q.pred), Some(q.obj), Some(q.graph)).value, x) <==>
      x.subject == q.subject && x.pred == q.pred && x.obj == q.obj && (q.graph.DefaultGraph? || x.graph == q.graph)
  {
  }

  /**
   * Giving only the default graph passes the all-unset check but leaves a
   * template with no position set, which matches every quad.
   */
  lemma DefaultGraphOnlyTemplateMatchesAll(x: Quad)
    ensures MakeTemplate(None, None, None, Some(DefaultGraph)).Success?
    ensures Matches(MakeTemplate(None, None, None, Some(DefaultGraph)).value, x)
  {
  }

  /** Against a term that is neither a template nor a quad, equals is false. */
  lemma EqualsNonQuadTermIsFalse(t: QuadTemplate, other: Term)
    requires !other.QuadTerm?
    ensures !Equals(t, TermOperand(other))
  {
  }

  /**
   * A template made by MakeTemplate: no literal subject, and the positions
   * respect their type hints.
   */
  predicate WellFormedTemplate(t: QuadTemplate)
  {
    !(t.subject.Some? && t.subject.value.Literal?) &&
    (t.pred.Some? ==> t.pred.value.NamedNode?) &&
    (t.graph.Some? ==> IsGraphTerm(t.graph.value) && !t.graph.value.DefaultGraph?)
  }

  /** withSubject(): rebuilds with a new subject, keeping the other three positions. */
  function WithSubject(t: QuadTemplate, subject: Option<Term>): (r: Result<QuadTemplate, Error>)
    requires WellFormedTemplate(t)
    ensures r.Success? <==> (subject.Some? || t.pred.Some? || t.obj.Some? || t.graph.Some?) &&
                            !(subject.Some? && subject.value.Literal?)
    ensures r.Success? ==> r.value == t.(subject := subject)
  {
    MakeTemplate(subject, t.pred, t.obj, t.graph)
  }

  /** withPredicate(): rebuilds with a new predicate, keeping the other three positions. */
  function WithPredicate(t: QuadTemplate, pred: Option<Term>): (r: Result<QuadTemplate, Error>)
    requires WellFormedTemplate(t) && (pred.Some? ==> pred.value.NamedNode?)
    ensures r.Success? <==> t.subject.Some? || pred.Some? || t.obj.Some? || t.graph.Some?
    ensures r.Success? ==> r.value == t.(pred := pred)
  {
    MakeTemplate(t.subject, pred, t.obj, t.graph)
  }

  /** withObject(): rebuilds with a new object, keeping the other three positions. */
  function WithObject(t: QuadTemplate, obj: Option<Term>): (r: Result<QuadTemplate, Error>)
    requires WellFormedTemplate(t)
    ensures r.Success? <==> t.subject.Some? || t.pred.Some? || obj.Some? || t.graph.Some?
    ensures r.Success? ==> r.value == t.(obj := obj)
  {
    MakeTemplate(t.subject, t.pred, obj, t.graph)
  }

  /** withGraphIri(): rebuilds with a new graph, a default graph turning into a wildcard. */
  function WithGraphIri(t: QuadTemplate, graph: Option<Term>): (r: Result<QuadTemplate, Error>)
    requires WellFormedTemplate(t) && (graph.Some? ==> IsGraphTerm(graph.value))
    ensures r.Success? <==> t.subject.Some? || t.pred.Some? || t.obj.Some? || graph.Some?
    ensures r.Success? ==> r.value == t.(graph := if graph == Some(DefaultGraph) then None else graph)
  {
    MakeTemplate(t.subject, t.pred, t.obj, graph)
  }
}
