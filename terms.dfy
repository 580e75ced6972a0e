/**
 * The RDF terms and the quad that is built from them. A quad can itself be
 * the subject or object of another quad (a quoted triple), so Term and Quad
 * are one mutually recursive family of values.
 *
 * NamedNode and DefaultGraph are plain constructors: an IRI string compared
 * as a string, and a marker without payload that equals every other default
 * graph.
 */
module Terms {
  import opened Wrappers
  import opened Text
  import opened Errors

  const XSD_STRING := "http://www.w3.org/2001/XMLSchema#string"
  const XSD_INTEGER := "http://www.w3.org/2001/XMLSchema#integer"
  const XSD_BOOLEAN := "http://www.w3.org/2001/XMLSchema#boolean"
  const RDF_LANG_STRING := "http://www.w3.org/1999/02/22-rdf-syntax-ns#langString"

  datatype Term =
    | NamedNode(iri: string)
    | BlankNode(id: string)
      /** A literal keeps its lexical form, i.e. (string) of the PHP value. */
    | Literal(lexical: string, lang: Option<string>, datatypeIri: string)
    | DefaultGraph
    | QuadTerm(quad: Quad)

  datatype Quad = Quad(subject: Term, pred: Term, obj: Term, graph: Term)

  /** BlankNode::equals: the other term is a blank node with the same id. */
  predicate BlankNodeEquals(a: Term, b: Term)
    requires a.BlankNode?
    ensures BlankNodeEquals(a, b) <==> a == b
  {
    b.BlankNode? && a.id == b.id
  }

  /** Literal::equals: same lexical form, same language tag (both absent or equal), same datatype. */
  predicate LiteralEquals(a: Term, b: Term)
    requires a.Literal?
    ensures LiteralEquals(a, b) <==> a == b
  {
    b.Literal? && a.lexical == b.lexical && a.lang == b.lang && a.datatypeIri == b.datatypeIri
  }

  /**
   * a->equals(b), dispatched on the variant of a: each class compares only
   * with its own kind and then field by field. The result is exactly value
   * equality, which is why the rest of the model compares terms and quads
   * with ==.
   */
  predicate TermEquals(a: Term, b: Term)
    ensures TermEquals(a, b) <==> a == b
    decreases a, 1
  {
    match a
    case NamedNode(iri) => b.NamedNode? && b.iri == iri
    case BlankNode(_) => BlankNodeEquals(a, b)
    case Literal(_, _, _) => LiteralEquals(a, b)
    case DefaultGraph => b.DefaultGraph?
    case QuadTerm(q) => QuadEqualsTerm(q, b)
  }

  /** Quad::equals against another quad: all four positions pairwise equal. */
  predicate QuadsEqual(a: Quad, b: Quad)
    ensures QuadsEqual(a, b) <==> a == b
    decreases a, 0
  {
    TermEquals(a.subject, b.subject) && TermEquals(a.pred, b.pred) &&
    TermEquals(a.obj, b.obj) && TermEquals(a.graph, b.graph)
  }

  /** Quad::equals against any term: false unless the term is a quad. */
  predicate QuadEqualsTerm(a: Quad, t: Term)
    ensures QuadEqualsTerm(a, t) <==> t == QuadTerm(a)
    decreases a, 1
  {
    t.QuadTerm? && QuadsEqual(a, t.quad)
  }

  /** Literal::__toString: "value" followed by @lang, or by ^^<datatype> unless it is xsd:string. */
  function LiteralString(lexical: string, lang: Option<string>, datatypeIri: string): string
  {
    var suffix :=
      if lang.Some? && lang.value != "" then "@" + lang.value
      else if datatypeIri != XSD_STRING then "^^<" + datatypeIri + ">"
      else "";
    "\"" + lexical + "\"" + suffix
  }

  /** The debug string of a term; a named node renders as <iri>, the default graph as nothing. */
  function TermString(t: Term): string
    decreases t, 1
  {
    match t
    case NamedNode(iri) => "<" + iri + ">"
    case BlankNode(id) => id
    case Literal(lexical, lang, datatypeIri) => LiteralString(lexical, lang, datatypeIri)
    case DefaultGraph => ""
    case QuadTerm(q) => QuadString(q)
  }

  /** A quoted quad in subject or object position is wrapped in << >>. */
  function PositionString(t: Term): string
    decreases t, 2
  {
    if t.QuadTerm? then "<< " + TermString(t) + " >>" else TermString(t)
  }

  /**
   * Quad::__toString: the four positions separated by spaces, the graph left
   * out when it is the default graph, trailing whitespace removed.
   */
  function QuadString(q: Quad): string
    decreases q, 0
  {
    var graph := if q.graph.DefaultGraph? then "" else TermString(q.graph);
    RTrim(PositionString(q.subject) + " " + TermString(q.pred) + " " +
          PositionString(q.obj) + " " + graph)
  }

  /** getValue(): the string payload; a quad has none and throws. */
  function Value(t: Term): Result<string, Error>
  {
    match t
    case NamedNode(iri) => Success(iri)
    case BlankNode(id) => Success(id)
    case Literal(lexical, _, _) => Success(lexical)
    case DefaultGraph => Success("")
    case QuadTerm(_) => Failure(NoValue)
  }
}
