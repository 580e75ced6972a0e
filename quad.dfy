/** Building quads, rebuilding them position by position, and their debug string. */
module Quads {
  import opened Wrappers
  import opened Text
  import opened Errors
  import opened Terms

  /** The terms PHP's type hints admit in graph position. */
  predicate IsGraphTerm(t: Term)
  {
    t.NamedNode? || t.BlankNode? || t.DefaultGraph?
  }

  /** What every constructed quad satisfies. */
  predicate WellFormedQuad(q: Quad)
  {
    !q.subject.Literal? && q.pred.NamedNode? && IsGraphTerm(q.graph)
  }

  /** new Quad(...): a literal subject throws; a missing graph becomes the default graph. */
  function MakeQuad(subject: Term, pred: Term, obj: Term, graph: Option<Term>): (r: Result<Quad, Error>)
    requires pred.NamedNode?
    requires graph.Some? ==> IsGraphTerm(graph.value)
    ensures r.Failure? <==> subject.Literal?
    ensures r.Failure? ==> r.error == LiteralSubject
    ensures r.Success? ==> WellFormedQuad(r.value)
    ensures r.Success? ==> r.value.subject == subject && r.value.pred == pred && r.value.obj == obj
    ensures r.Success? ==> r.value.graph == (if graph.None? then DefaultGraph else graph.value)
  {
    if subject.Literal? then Failure(LiteralSubject)
    else Success(Quad(subject, pred, obj, if graph.None? then DefaultGraph else graph.value))
  }

  /** withSubject(): fails on a literal, otherwise replaces the subject only. */
  function WithSubject(q: Quad, subject: Term): (r: Result<Quad, Error>)
    requires WellFormedQuad(q)
    ensures r.Failure? <==> subject.Literal?
    ensures r.Success? ==> WellFormedQuad(r.value) && r.value.subject == subject
    ensures r.Success? ==> r.value.pred == q.pred && r.value.obj == q.obj && r.value.graph == q.graph
  {
    MakeQuad(subject, q.pred, q.obj, Some(q.graph))
  }

  /** withPredicate(): replaces the predicate only. */
  function WithPredicate(q: Quad, pred: Term): (r: Quad)
    requires WellFormedQuad(q) && pred.NamedNode?
    ensures WellFormedQuad(r) && r.pred == pred
    ensures r.subject == q.subject && r.obj == q.obj && r.graph == q.graph
  {
    MakeQuad(q.subject, pred, q.obj, Some(q.graph)).value
  }

  /** withObject(): replaces the object only. */
  function WithObject(q: Quad, obj: Term): (r: Quad)
    requires WellFormedQuad(q)
    ensures WellFormedQuad(r) && r.obj == obj
    ensures r.subject == q.subject && r.pred == q.pred && r.graph == q.graph
  {
    MakeQuad(q.subject, q.pred, obj, Some(q.graph)).value
  }

  /** withGraph(): replaces the graph only; null means the default graph. */
  function WithGraph(q: Quad, graph: Option<Term>): (r: Quad)
    requires WellFormedQuad(q)
    requires graph.Some? ==> IsGraphTerm(graph.value)
    ensures WellFormedQuad(r) && r.graph == (if graph.None? then DefaultGraph else graph.value)
    ensures r.subject == q.subject && r.pred == q.pred && r.obj == q.obj
  {
    MakeQuad(q.subject, q.pred, q.obj, graph).value
  }

  /** A quad in the default graph prints as its three other positions. */
  lemma DefaultGraphOmitted(q: Quad)
    requires q.graph.DefaultGraph?
    ensures QuadString(q) ==
      RTrim(PositionString(q.subject) + " " + TermString(q.pred) + " " + PositionString(q.obj))
  {
    var spo := PositionString(q.subject) + " " + TermString(q.pred) + " " + PositionString(q.obj);
    assert spo + " " + "" == spo + " ";
    RTrimIgnoresTrailingBlanks(spo, " ");
  }

  /** A quad in a named graph prints all four positions, nothing trimmed. */
  lemma NamedGraphPrinted(q: Quad)
    requires q.graph.NamedNode?
    ensures QuadString(q) ==
      PositionString(q.subject) + " " + TermString(q.pred) + " " + PositionString(q.obj) + " <" + q.graph.iri + ">"
  {
    var full := PositionString(q.subject) + " " + TermString(q.pred) + " " + PositionString(q.obj) + " " + TermString(q.graph);
    RTrimKeepsPrefix(full, full);
  }

  /** A quoted quad in subject position prints in full between << and >>. */
  lemma QuotedSubjectPrinted(q: Quad)
    requires q.subject.QuadTerm?
    ensures "<< " + QuadString(q.subject.quad) + " >>" <= QuadString(q)
  {
    var p := "<< " + QuadString(q.subject.quad) + " >>";
    var s := PositionString(q.subject);
    assert TermString(q.subject) == QuadString(q.subject.quad);
    assert p == s;
    var g := if q.graph.DefaultGraph? then "" else TermString(q.graph);
    var rest := " " + TermString(q.pred) + " " + PositionString(q.obj) + " " + g;
    Regroup(s, " ", TermString(q.pred), " ", PositionString(q.obj), " ", g);
    PrefixOfJoin(p, rest);
    assert p[|p| - 1] == '>';
    RTrimKeepsPrefix(p, p + rest);
  }

  /**
   * A quoted quad in object position prints in full between << and >>,
   * right after the subject and the predicate.
   */
  lemma QuotedObjectPrinted(q: Quad)
    requires q.obj.QuadTerm?
    ensures PositionString(q.subject) + " " + TermString(q.pred) + " " +
            "<< " + QuadString(q.obj.quad) + " >>" <= QuadString(q)
  {
    var o := "<< " + QuadString(q.obj.quad) + " >>";
    assert TermString(q.obj) == QuadString(q.obj.quad);
    assert PositionString(q.obj) == o;
    var head := PositionString(q.subject) + " " + TermString(q.pred) + " ";
    var p := head + o;
    assert p == head + "<< " + QuadString(q.obj.quad) + " >>";
    var g := if q.graph.DefaultGraph? then "" else TermString(q.graph);
    SplitOffFirst(p, " ", g, "");
    assert head + PositionString(q.obj) + " " + g == p + (" " + g + "");
    PrefixOfJoin(p, " " + g + "");
    assert p[|p| - 1] == '>';
    RTrimKeepsPrefix(p, p + (" " + g + ""));
  }

  lemma Regroup(a: string, b: string, c: string, d: string, e: string, f: string, g: string)
    ensures a + b + c + d + e + f + g == a + (b + c + d + e + f + g)
  {
  }
}
