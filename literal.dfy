/**
 * Literal construction and the with* rebuilders. A literal is stored by its
 * lexical form, its optional language tag and its datatype IRI; the PHP
 * value it was built from only decides those three.
 */
module Literals {
  import opened Wrappers
  import opened Text
  import opened Errors
  import opened Terms

  /** The PHP values a literal is built from (floats and Stringable objects are not modelled). */
  datatype Native = IntValue(i: int) | BoolValue(b: bool) | StringValue(s: string)

  /** PHP's (string) cast of a value: true is "1", false is "". */
  function Lexical(v: Native): string
  {
    match v
    case IntValue(i) => IntToString(i)
    case BoolValue(b) => if b then "1" else ""
    case StringValue(s) => s
  }

  /** The shape every constructed literal has: a language tag is never empty and forces rdf:langString. */
  predicate WellFormed(t: Term)
  {
    t.Literal? && t.datatypeIri != "" &&
    (t.lang.Some? ==> t.lang.value != "" && t.datatypeIri == RDF_LANG_STRING)
  }

  /**
   * new Literal($value, $lang, $datatype): a language tag wins over any
   * datatype; with neither, the datatype is inferred from the PHP type and a
   * boolean is stored as the integer 1 or 0; an explicit datatype is kept
   * verbatim.
   */
  function MakeLiteral(value: Native, lang: Option<string>, datatypeIri: Option<string>): (t: Term)
    ensures WellFormed(t)
    ensures NotEmpty(lang) ==> t.lang == lang && t.datatypeIri == RDF_LANG_STRING
    ensures !NotEmpty(lang) ==> t.lang == None
    ensures !NotEmpty(lang) && NotEmpty(datatypeIri) ==> t.datatypeIri == datatypeIri.value
    ensures !NotEmpty(lang) && !NotEmpty(datatypeIri) ==>
      t.datatypeIri == (match value
                        case IntValue(_) => XSD_INTEGER
                        case BoolValue(_) => XSD_BOOLEAN
                        case StringValue(_) => XSD_STRING)
    ensures NotEmpty(lang) || NotEmpty(datatypeIri) || !value.BoolValue? ==> t.lexical == Lexical(value)
    ensures !NotEmpty(lang) && !NotEmpty(datatypeIri) && value.BoolValue? ==>
      t.lexical == (if value.b then "1" else "0")
  {
    if NotEmpty(lang) then Literal(Lexical(value), lang, RDF_LANG_STRING)
    else if !NotEmpty(datatypeIri) then
      match value
      case IntValue(_) => Literal(Lexical(value), None, XSD_INTEGER)
      case BoolValue(b) => Literal(Lexical(IntValue(if b then 1 else 0)), None, XSD_BOOLEAN)
      case StringValue(_) => Literal(Lexical(value), None, XSD_STRING)
    else Literal(Lexical(value), None, datatypeIri.value)
  }

  /**
   * Literals built from plain PHP values without lang or datatype are equal
   * exactly when the values are: the inferred datatype separates the kinds
   * and the lexical form separates values of one kind.
   */
  lemma InferredLiteralsEqualIff(v: Native, w: Native)
    ensures MakeLiteral(v, None, None) == MakeLiteral(w, None, None) <==> v == w
  {
    if v.IntValue? && w.IntValue? {
      IntToStringInjective(v.i, w.i);
    }
  }

  /** getValue() of an integer literal reads back as the integer it was built from. */
  lemma IntegerLiteralRoundTrip(i: int)
    ensures Value(MakeLiteral(IntValue(i), None, None)) == Success(IntToString(i))
    ensures ParseInt(MakeLiteral(IntValue(i), None, None).lexical) == Some(i)
  {
    IntToStringRoundTrip(i);
  }

  /**
   * Equality looks at the lexical form only: a string and an integer with the
   * same digits are the same literal once they carry the same datatype.
   */
  lemma ExplicitDatatypeComparesLexicalForms(v: Native, w: Native, dt: string)
    requires dt != ""
    ensures MakeLiteral(v, None, Some(dt)) == MakeLiteral(w, None, Some(dt)) <==> Lexical(v) == Lexical(w)
  {
  }

  /**
   * withValue(): a string value keeps the language tag and datatype, any
   * other value is typed afresh as if built without them.
   */
  function WithValue(l: Term, value: Native): (t: Term)
    requires WellFormed(l)
    ensures WellFormed(t)
    ensures value.StringValue? ==> t.lexical == value.s && t.lang == l.lang && t.datatypeIri == l.datatypeIri
    ensures !value.StringValue? ==> t == MakeLiteral(value, None, None)
  {
    if value.StringValue? then MakeLiteral(value, l.lang, Some(l.datatypeIri))
    else MakeLiteral(value, None, None)
  }

  /**
   * withLang(): the datatype flips between rdf:langString and xsd:string
   * only when the presence of a language tag changes; otherwise it is kept.
   */
  function WithLang(l: Term, lang: Option<string>): (t: Term)
    requires WellFormed(l)
    ensures WellFormed(t) && t.lexical == l.lexical
    ensures NotEmpty(lang) ==> t.lang == lang && t.datatypeIri == RDF_LANG_STRING
    ensures !NotEmpty(lang) ==> t.lang == None
    ensures !NotEmpty(lang) && l.lang.Some? ==> t.datatypeIri == XSD_STRING
    ensures !NotEmpty(lang) && l.lang.None? ==> t == l
  {
    var hadLang := l.lang.Some?;
    var hasLang := NotEmpty(lang);
    var datatypeIri :=
      if hadLang != hasLang then (if hasLang then RDF_LANG_STRING else XSD_STRING)
      else l.datatypeIri;
    MakeLiteral(StringValue(l.lexical), lang, Some(datatypeIri))
  }

  /**
   * Tagging a plain string literal with a language and removing the tag
   * again gives back the original literal; for any other datatype the
   * round trip ends at xsd:string instead.
   */
  lemma {:induction false} WithLangRoundTrip(l: Term, tag: string)
    requires WellFormed(l) && l.lang.None? && tag != ""
    ensures WithLang(WithLang(l, Some(tag)), None) == Literal(l.lexical, None, XSD_STRING)
    ensures l.datatypeIri == XSD_STRING ==> WithLang(WithLang(l, Some(tag)), None) == l
  {
    var tagged := WithLang(l, Some(tag));
    assert tagged.lang == Some(tag);
  }

  /** withDatatype(): rejects an empty datatype and rdf:langString, and drops the language tag. */
  function WithDatatype(l: Term, datatypeIri: string): (r: Result<Term, Error>)
    requires WellFormed(l)
    ensures r.Failure? <==> datatypeIri == "" || datatypeIri == RDF_LANG_STRING
    ensures r.Failure? ==> r.error == BadDatatype
    ensures r.Success? ==> r.value == Literal(l.lexical, None, datatypeIri) && WellFormed(r.value)
  {
    if datatypeIri == "" || datatypeIri == RDF_LANG_STRING then Failure(BadDatatype)
    else Success(MakeLiteral(StringValue(l.lexical), None, Some(datatypeIri)))
  }

  /** __toString(): "value"@lang, "value"^^<datatype>, or just "value" for xsd:string. */
  lemma LiteralStringForms(l: Term)
    requires WellFormed(l)
    ensures l.lang.Some? ==> TermString(l) == "\"" + l.lexical + "\"@" + l.lang.value
    ensures l.lang.None? && l.datatypeIri == XSD_STRING ==> TermString(l) == "\"" + l.lexical + "\""
    ensures l.lang.None? && l.datatypeIri != XSD_STRING ==>
      TermString(l) == "\"" + l.lexical + "\"^^<" + l.datatypeIri + ">"
  {
  }
}
