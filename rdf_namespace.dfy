/**
 * The namespace map: short names bound to IRI prefixes, used to expand
 * prefixed names ("ex:foo") and to shorten full IRIs.
 */
module Namespaces {
  import opened Wrappers
  import opened Errors
  import opened Text
  import opened Terms

  /** One entry of the map: a short name and the IRI prefix it stands for. */
  datatype Binding = Binding(name: string, prefix: string)

  /** The map keeps each short name once; entries keep their insertion order. */
  predicate DistinctNames(bs: seq<Binding>)
  {
    forall i, j :: 0 <= i < j < |bs| ==> bs[i].name != bs[j].name
  }

  /** The prefix bound to a short name, if any. */
  function Lookup(bs: seq<Binding>, name: string): (r: Option<string>)
    ensures r.Some? ==> Binding(name, r.value) in bs
    ensures r.None? ==> forall i :: 0 <= i < |bs| ==> bs[i].name != name
  {
    if bs == [] then None
    else if bs[0].name == name then Some(bs[0].prefix)
    else Lookup(bs[1..], name)
  }

  /** `$namespaces[$name] = $prefix`: rebinds an existing name in place, or appends a new one. */
  function Bind(bs: seq<Binding>, name: string, prefix: string): (r: seq<Binding>)
    ensures DistinctNames(bs) ==> DistinctNames(r)
    ensures forall i :: 0 <= i < |r| ==> r[i].name == name || r[i] in bs
  {
    if bs == [] then [Binding(name, prefix)]
    else if bs[0].name == name then [Binding(name, prefix)] + bs[1..]
    else
      var tail := Bind(bs[1..], name, prefix);
      assert forall i :: 0 <= i < |tail| ==> tail[i].name == name || tail[i] in bs;
      [bs[0]] + tail
  }

  /** `unset($namespaces[$name])`. */
  function Unbind(bs: seq<Binding>, name: string): (r: seq<Binding>)
    ensures DistinctNames(bs) ==> DistinctNames(r)
    ensures forall i :: 0 <= i < |r| ==> r[i].name != name && r[i] in bs
  {
    if bs == [] then []
    else if bs[0].name == name then Unbind(bs[1..], name)
    else
      var tail := Unbind(bs[1..], name);
      assert forall i :: 0 <= i < |tail| ==> tail[i] in bs;
      [bs[0]] + tail
  }

  /** array_search(): the first short name bound to the given prefix. */
  function FindName(bs: seq<Binding>, prefix: string): (r: Option<string>)
    ensures r.Some? ==> Binding(r.value, prefix) in bs
    ensures r.None? ==> forall i :: 0 <= i < |bs| ==> bs[i].prefix != prefix
  {
    if bs == [] then None
    else if bs[0].prefix == prefix then Some(bs[0].name)
    else FindName(bs[1..], prefix)
  }

  /** After binding a name, looking it up gives the new prefix; every other name is unaffected. */
  lemma {:induction false} LookupAfterBind(bs: seq<Binding>, name: string, prefix: string, other: string)
    ensures Lookup(Bind(bs, name, prefix), other) == if other == name then Some(prefix) else Lookup(bs, other)
  {
    if bs != [] && bs[0].name != name {
      LookupAfterBind(bs[1..], name, prefix, other);
      assert Bind(bs, name, prefix)[1..] == Bind(bs[1..], name, prefix);
    }
  }

  /** After unbinding a name, it is unknown; every other name is unaffected. */
  lemma {:induction false} LookupAfterUnbind(bs: seq<Binding>, name: string, other: string)
    ensures Lookup(Unbind(bs, name), other) == if other == name then None else Lookup(bs, other)
  {
    if bs != [] {
      LookupAfterUnbind(bs[1..], name, other);
      if bs[0].name != name {
        assert Unbind(bs, name)[1..] == Unbind(bs[1..], name);
      }
    }
  }

  /** With distinct names, the name array_search() finds for a prefix is bound to that prefix. */
  lemma {:induction false} FoundNameLooksUpPrefix(bs: seq<Binding>, prefix: string)
    requires DistinctNames(bs) && FindName(bs, prefix).Some?
    ensures Lookup(bs, FindName(bs, prefix).value) == Some(prefix)
  {
    var name := FindName(bs, prefix).value;
    if bs[0].prefix != prefix {
      FoundNameLooksUpPrefix(bs[1..], prefix);
      assert Binding(name, prefix) in bs[1..];
      var k :| 0 <= k < |bs[1..]| && bs[1..][k] == Binding(name, prefix);
      assert bs[k + 1].name == name;
      assert bs[0].name != name;
    }
  }

  /** The names add() and shorten() make up: "n" followed by the counter. */
  function AutoName(k: nat): (name: string)
    ensures |name| >= 2 && name[0] == 'n' && ':' !in name
    ensures forall i :: 1 <= i < |name| ==> IsDigit(name[i])
  {
    assert forall c :: c in NatToString(k) ==> IsDigit(c);
    "n" + NatToString(k)
  }

  /** Distinct counter values give distinct names. */
  lemma AutoNamesDistinct(a: nat, b: nat)
    requires a != b
    ensures AutoName(a) != AutoName(b)
  {
    if AutoName(a) == AutoName(b) {
      assert NatToString(a) == AutoName(a)[1..] == AutoName(b)[1..] == NatToString(b);
      NatToStringRoundTrip(a);
      NatToStringRoundTrip(b);
    }
  }

  /** expand(): splits at the first ':' and replaces the alias by its prefix. */
  function Expansion(bs: seq<Binding>, shortIri: string): (r: Result<Term, Error>)
    ensures ':' !in shortIri <==> r == Failure(NotShortened)
    ensures r.Success? ==> r.value.NamedNode? && exists b :: b in bs && StartsWith(shortIri, b.name + ":") &&
                                                  r.value.iri == b.prefix + shortIri[|b.name| + 1..]
  {
    match FirstIndexOf(shortIri, ':')
    case None => Failure(NotShortened)
    case Some(pos) =>
      match Lookup(bs, shortIri[..pos])
      case None => Failure(UnknownAlias)
      case Some(prefix) =>
        assert shortIri[..pos + 1] == shortIri[..pos] + ":";
        Success(NamedNode(prefix + shortIri[pos + 1..]))
  }

  /** A short name without ':' followed by ':' is expanded through that name's binding. */
  lemma ExpandJoined(bs: seq<Binding>, name: string, rest: string)
    requires ':' !in name
    ensures Expansion(bs, name + ":" + rest) ==
      match Lookup(bs, name)
      case None => Failure(UnknownAlias)
      case Some(prefix) => Success(NamedNode(prefix + rest))
  {
    var s := name + ":" + rest;
    assert s[|name|] == ':';
    assert s[..|name|] == name;
    assert s[|name| + 1..] == rest;
  }

  predicate IsSeparator(c: char)
  {
    c == '/' || c == '#'
  }

  /** max(strrpos($s, '/'), strrpos($s, '#')): the last separator, None when there is none. */
  function LastSeparator(s: string): (r: Option<nat>)
    ensures r.None? ==> forall j :: 0 <= j < |s| ==> !IsSeparator(s[j])
    ensures r.Some? ==> r.value < |s| && IsSeparator(s[r.value]) &&
                        forall j :: r.value < j < |s| ==> !IsSeparator(s[j])
  {
    var slash := LastIndexOf(s, '/');
    var hash := LastIndexOf(s, '#');
    if slash.None? then hash
    else if hash.None? then slash
    else if slash.value < hash.value then hash
    else slash
  }

  /**
   * p + 1 for the p of shorten(): PHP adds 1 to a strrpos() miss (false) and
   * gets 1, so a missing separator counts as one at position 0.
   */
  function AfterSeparator(s: string): (r: nat)
    ensures r >= 1
  {
    match LastSeparator(s)
    case None => 1
    case Some(p) => p + 1
  }

  /**
   * Where shorten() cuts an IRI: after its last '/' or '#', or, when that is
   * the final character, after the last one before it; substr() caps the cut
   * at the length of the IRI.
   */
  function SplitPoint(iri: string): (r: nat)
    ensures r <= |iri|
    ensures |iri| >= 2 ==> r < |iri|
    ensures r == 0 <==> iri == ""
    ensures forall j :: r <= j < |iri| - 1 ==> !IsSeparator(iri[j])
    ensures r > 0 && !IsSeparator(iri[r - 1]) ==> r == 1 && forall j :: 0 <= j < |iri| - 1 ==> !IsSeparator(iri[j])
  {
    var n := |iri|;
    var p1 := AfterSeparator(iri);
    var p := if p1 >= n then AfterSeparator(if n > 0 then iri[..n - 1] else "") else p1;
    if p >= n then n else p
  }

  /** An IRI without any separator before its last character is cut after its first character. */
  lemma NoSeparatorCutsAfterFirstChar(iri: string)
    requires |iri| >= 1 && forall j :: 0 <= j < |iri| ==> !IsSeparator(iri[j])
    ensures SplitPoint(iri) == 1
  {
  }

  /** The outcome of shorten(): its result and the map and counter it leaves behind. */
  datatype Shortening = Shortening(result: Result<string, Error>, bindings: seq<Binding>, counter: nat)

  /** The short name shorten() uses: the first one bound to the prefix, or a new one. */
  function ShortenedName(bs: seq<Binding>, n: nat, iri: string): string
  {
    match FindName(bs, iri[..SplitPoint(iri)])
    case Some(name) => name
    case None => AutoName(n)
  }

  /** shorten() on the map bs with counter n. */
  function Shortened(bs: seq<Binding>, n: nat, iri: string, create: bool): (s: Shortening)
    ensures s.result.Success? ==> s.result.value == ShortenedName(bs, n, iri) + ":" + iri[SplitPoint(iri)..]
    ensures s.result.Failure? <==> !create && FindName(bs, iri[..SplitPoint(iri)]).None?
    ensures s.result.Failure? ==> s == Shortening(Failure(UnregisteredIri), bs, n)
  {
    var cut := SplitPoint(iri);
    var prefix := iri[..cut];
    match FindName(bs, prefix)
    case Some(name) => Shortening(Success(name + ":" + iri[cut..]), bs, n)
    case None =>
      if create then Shortening(Success(AutoName(n) + ":" + iri[cut..]), Bind(bs, AutoName(n), prefix), n + 1)
      else Shortening(Failure(UnregisteredIri), bs, n)
  }

  /**
   * Expanding what shorten() returns, against the map it leaves, gives the
   * IRI back, whenever the short name it used has no ':' (a name it makes up
   * never has one).
   */
  lemma ShortenThenExpand(bs: seq<Binding>, n: nat, iri: string, create: bool)
    requires DistinctNames(bs)
    requires Shortened(bs, n, iri, create).result.Success?
    requires ':' !in ShortenedName(bs, n, iri)
    ensures var s := Shortened(bs, n, iri, create);
            Expansion(s.bindings, s.result.value) == Success(NamedNode(iri))
  {
    var cut := SplitPoint(iri);
    var prefix := iri[..cut];
    var name := ShortenedName(bs, n, iri);
    var s := Shortened(bs, n, iri, create);
    if FindName(bs, prefix).Some? {
      FoundNameLooksUpPrefix(bs, prefix);
      assert s.bindings == bs;
    } else {
      LookupAfterBind(bs, name, prefix, name);
      assert s.bindings == Bind(bs, name, prefix);
    }
    assert Lookup(s.bindings, name) == Some(prefix);
    ExpandJoined(s.bindings, name, iri[cut..]);
    CutJoin(iri, cut);
  }

  /** A name picked by the counter overwrites a binding the caller gave that same name. */
  lemma AutoNameMayReplaceGivenName(p: string, q: string)
    ensures Lookup(Bind(Bind([], "n0", p), AutoName(0), q), "n0") == Some(q)
  {
    assert AutoName(0) == "n0";
  }

  /** The namespace map object: the bindings in insertion order and the name counter. */
  class RdfNamespace {
    var n: nat
    var namespaces: seq<Binding>

    ghost predicate Valid()
      reads this
    {
      DistinctNames(namespaces)
    }

    constructor ()
      ensures Valid() && n == 0 && namespaces == []
    {
      n := 0;
      namespaces := [];
    }

    /** add(): binds the prefix to the given name, or to a new counter name when none is given. */
    method Add(iriPrefix: string, shortName: Option<string>) returns (name: string)
      requires Valid()
      modifies this
      ensures Valid()
      ensures NotEmpty(shortName) ==> name == shortName.value && n == old(n)
      ensures !NotEmpty(shortName) ==> name == AutoName(old(n)) && n == old(n) + 1
      ensures namespaces == Bind(old(namespaces), name, iriPrefix)
      ensures Get(name) == Success(iriPrefix)
    {
      if NotEmpty(shortName) {
        name := shortName.value;
      } else {
        name := AutoName(n);
        n := n + 1;
      }
      namespaces := Bind(namespaces, name, iriPrefix);
      LookupAfterBind(old(namespaces), name, iriPrefix, name);
    }

    /** remove(): forgets the name; other bindings and the counter stay. */
    method Remove(shortName: string)
      requires Valid()
      modifies this
      ensures Valid() && n == old(n)
      ensures namespaces == Unbind(old(namespaces), shortName)
      ensures Get(shortName) == Failure(UnknownPrefix)
    {
      namespaces := Unbind(namespaces, shortName);
      LookupAfterUnbind(old(namespaces), shortName, shortName);
    }

    /** get(): the prefix bound to a name; an unknown name is an out-of-bounds error. */
    function Get(shortName: string): (r: Result<string, Error>)
      reads this
      ensures r.Success? ==> Binding(shortName, r.value) in namespaces
      ensures r.Failure? ==> r.error == UnknownPrefix && forall i :: 0 <= i < |namespaces| ==> namespaces[i].name != shortName
    {
      match Lookup(namespaces, shortName)
      case None => Failure(UnknownPrefix)
      case Some(prefix) => Success(prefix)
    }

    /** expand(): the named node a prefixed name stands for. */
    function Expand(shortIri: string): (r: Result<Term, Error>)
      reads this
      ensures ':' !in shortIri <==> r == Failure(NotShortened)
      ensures r.Success? ==> r.value.NamedNode? && exists b :: b in namespaces && StartsWith(shortIri, b.name + ":") &&
                                                    r.value.iri == b.prefix + shortIri[|b.name| + 1..]
    {
      Expansion(namespaces, shortIri)
    }

    /** shorten(): the prefixed form of a named node, registering its prefix when asked to. */
    method Shorten(iri: Term, create: bool) returns (r: Result<string, Error>)
      requires Valid() && iri.NamedNode?
      modifies this
      ensures Valid()
      ensures Shortened(old(namespaces), old(n), iri.iri, create) == Shortening(r, namespaces, n)
      ensures r.Success? && ':' !in ShortenedName(old(namespaces), old(n), iri.iri) ==> Expand(r.value) == Success(iri)
    {
      var s := iri.iri;
      var cut := SplitPoint(s);
      var prefix := s[..cut];
      var found := FindName(namespaces, prefix);
      if found.Some? {
        r := Success(found.value + ":" + s[cut..]);
      } else if create {
        var name := AutoName(n);
        n := n + 1;
        namespaces := Bind(namespaces, name, prefix);
        r := Success(name + ":" + s[cut..]);
      } else {
        r := Failure(UnregisteredIri);
      }
      if r.Success? && ':' !in ShortenedName(old(namespaces), old(n), s) {
        ShortenThenExpand(old(namespaces), old(n), s, create);
      }
    }
  }
}
