/**
 * The exceptions the library throws, one constructor per throw site kind.
 * The first group are BadMethodCallExceptions, the second OutOfBoundsExceptions.
 */
module Errors {

  datatype Error =
    // BadMethodCallException
    | LiteralSubject    // a quad or template with a literal subject
    | EmptyTemplate     // a template with all four positions unset
    | BadDatatype       // withDatatype("") or withDatatype(rdf:langString)
    | NotShortened      // expand() of a string without ':'
    | NoValue           // getValue() of a quad
    // OutOfBoundsException
    | UnknownPrefix     // RdfNamespace::get of an unbound short name
    | UnknownAlias      // RdfNamespace::expand with an unbound alias
    | UnregisteredIri   // RdfNamespace::shorten without a matching prefix
    | BadOffset         // an integer offset other than 0
    | NoMatch           // no stored quad matches
    | Ambiguous         // more than one stored quad matches

  predicate IsOutOfBounds(e: Error)
  {
    e.UnknownPrefix? || e.UnknownAlias? || e.UnregisteredIri? || e.BadOffset? || e.NoMatch? || e.Ambiguous?
  }
}
