# simpleRdf in Dafny

A model of the core of sweetrdf/simpleRdf, a small in-memory RDF library for
PHP:

- the RDF terms: blank nodes, literals and quads, including quoted quads;
- quad templates, which are quad patterns with wildcard positions;
- the namespace map `RdfNamespace`, which expands `alias:local` names and
  shortens full IRIs;
- the `Dataset` class: a set of quads stored in one PHP array, with every
  query and change running through a single matcher pipeline.

The modules follow the library's files:

| file | module | models |
|---|---|---|
| `wrappers.dfy` | `Wrappers` | `Option` / `Result` |
| `errors.dfy` | `Errors` | the exceptions: `BadMethodCallException` kinds and `OutOfBoundsException` kinds |
| `text.dfy` | `Text` | the PHP string functions used: `(string)` of an integer, `rtrim`, `str_starts_with`, `strpos`, `strrpos` |
| `terms.dfy` | `Terms` | the term and quad values, every class's `equals`, the debug strings, `getValue` |
| `literal.dfy` | `Literals` | `Literal`: construction, `withValue`, `withLang`, `withDatatype` |
| `blank_node.dfy` | `BlankNodes` | `BlankNode` and its id counter |
| `quad.dfy` | `Quads` | `Quad`: construction, the `with*` rebuilders, `__toString` |
| `quad_template.dfy` | `QuadTemplates` | `QuadTemplate`: construction, both `equals` branches, the `with*` rebuilders |
| `rdf_namespace.dfy` | `Namespaces` | `RdfNamespace` |
| `storage.dfy` | `Storage` | the PHP array behind `Dataset`: keys, `unset`, `[] =`, `array_values`, `array_splice`, and the results of the add, forEach and reduce loops |
| `matching.dfy` | `Matching` | `prepareMatchFunction`, `findMatchingQuads`, `findNotMatchingQuads`, `checkIteratorEnd` |
| `dataset.dfy` | `Datasets` | the `Dataset` class and its operations |

How each part is modelled:

- **Terms.** Terms are values. Each class's `equals` is written as the source
  writes it: the same kind, then field by field. It is proved to be exactly
  value equality, so the rest of the model compares with `==`.
- **Array storage.** The PHP array `$quads` is a field `entries`: a sequence of
  (key, quad) entries in iteration order. A second field, `nextKey`, is the
  key that `$quads[] =` uses next. `unset` leaves a gap in the keys. Only
  `array_values` (in `forEach`) and `array_splice` (in `offsetUnset`) renumber
  from 0. The class invariant `Valid()` says three things: keys ascend, keys
  stay below `nextKey`, and no quad is stored twice.
- **Filters.** A filter is a `Matcher`: a callback, a quad, a template, a
  collection of quads, or an integer offset. A missing filter (PHP `null`) is
  `Option.None`. `findMatchingQuads` reads it as "match everything" and
  `findNotMatchingQuads` as "match nothing".
- **Matches.** The matches are computed as a list of entries. `Find` turns "no
  match" and "a non-zero integer offset" into the `OutOfBoundsException`
  cases.
- **Namespace map and blank nodes.** The namespace map and the blank-node
  counter are classes whose methods update their fields. The pure values
  (literals, quads, templates) are functions.

## Model

| member | source | states |
|---|---|---|
| `Terms.BlankNodeEquals` | src/simpleRdf/BlankNode.php:57-59 | a blank node equals exactly the blank nodes with its id, i.e. itself as a value |
| `Terms.LiteralEquals` | src/simpleRdf/Literal.php:116-124 | two literals are equal iff lexical form, language tag and datatype all agree, which is value equality |
| `Terms.TermEquals` | src/simpleRdf/Quad.php:80-83 | `equals` dispatched on the receiver's class holds iff the two terms are the same value, quoted quads included |
| `Terms.QuadsEqual` | src/simpleRdf/Quad.php:80-83 | two quads are equal iff all four positions are pairwise equal, i.e. the quads are the same value |
| `Terms.QuadEqualsTerm` | src/simpleRdf/Quad.php:77-87 | `Quad::equals` of any term holds only for a quoted quad with the same four positions; every other term gives false |
| `Text.FirstIndexOf` | src/simpleRdf/RdfNamespace.php:74 | `strpos`: the first position of the character, and none of it before that; absent means the character does not occur |
| `Text.LastIndexOf` | src/simpleRdf/RdfNamespace.php:88 | `strrpos`: a position holding the character with no occurrence after it; absent means it does not occur |
| `Text.RTrim` | src/simpleRdf/Quad.php:74 | `rtrim` removes exactly the trailing whitespace: the result is a prefix of its input, everything cut off is whitespace, and the result does not end in whitespace |
| `Text.RTrimIgnoresTrailingBlanks` | src/simpleRdf/Quad.php:74 | appending whitespace to a string does not change its `rtrim` |
| `Text.IntToStringRoundTrip` | src/simpleRdf/Literal.php:102 | reading the decimal form of an integer gives the integer back |
| `Text.IntToStringInjective` | src/simpleRdf/Literal.php:102 | different integers have different decimal forms |
| `Literals.MakeLiteral` | src/simpleRdf/Literal.php:61-87 | a non-empty language tag forces `rdf:langString`; with neither tag nor datatype, `xsd:integer`, `xsd:boolean` (stored as "1"/"0") or `xsd:string` is inferred; an explicit datatype is kept verbatim |
| `Literals.InferredLiteralsEqualIff` | src/simpleRdf/Literal.php:68-82 | literals inferred from two plain values are equal iff the values are equal |
| `Literals.IntegerLiteralRoundTrip` | src/simpleRdf/Literal.php:99-106 | `getValue()` of an integer literal is its decimal form, which parses back to the integer |
| `Literals.ExplicitDatatypeComparesLexicalForms` | src/simpleRdf/Literal.php:116-124 | under one explicit datatype, two literals are equal iff their lexical forms are, whatever PHP type they came from |
| `Literals.WithValue` | src/simpleRdf/Literal.php:126-133 | a string value keeps the language tag and datatype; any other value is typed afresh |
| `Literals.WithLang` | src/simpleRdf/Literal.php:135-144 | the datatype switches between `rdf:langString` and `xsd:string` only when the presence of a tag changes; the lexical form is kept |
| `Literals.WithLangRoundTrip` | src/simpleRdf/Literal.php:135-144 | tagging an untagged literal and untagging it again yields an `xsd:string` literal with the same lexical form, which is the original when that was `xsd:string` |
| `Literals.WithDatatype` | src/simpleRdf/Literal.php:146-151 | fails exactly for an empty datatype or `rdf:langString`; otherwise the language tag is dropped and the datatype replaced |
| `Literals.LiteralStringForms` | src/simpleRdf/Literal.php:89-97 | `__toString` is `"v"@lang`, `"v"` for `xsd:string`, or `"v"^^<dt>` |
| `BlankNodes.WithPrefix` | src/simpleRdf/BlankNode.php:47-50 | the stored id starts with `_:`; an id that already does is kept, others get `_:` prepended |
| `BlankNodes.GeneratedId` | src/simpleRdf/BlankNode.php:44 | a generated id starts with `_:` |
| `BlankNodes.GeneratedIdsDistinct` | src/simpleRdf/BlankNode.php:43-46 | different counter values give different generated ids |
| `BlankNodes.BlankNodeFactory.constructor` | src/simpleRdf/BlankNode.php:39 | the counter starts at 0 |
| `BlankNodes.BlankNodeFactory.NewBlankNode` | src/simpleRdf/BlankNode.php:42-51 | an absent or empty id is generated from the counter, which is then incremented, so the new id differs from all earlier generated ids; a supplied id is only prefixed |
| `BlankNodes.BlankNodeValueIsString` | src/simpleRdf/BlankNode.php:53-63 | `getValue()` and `__toString()` both give the id |
| `Quads.MakeQuad` | src/simpleRdf/Quad.php:50-61 | fails exactly for a literal subject; otherwise keeps the positions, and a missing graph becomes the default graph |
| `Quads.WithSubject` | src/simpleRdf/Quad.php:109-111 | replaces the subject only, and fails exactly for a literal subject |
| `Quads.WithPredicate` | src/simpleRdf/Quad.php:113-115 | replaces the predicate only |
| `Quads.WithObject` | src/simpleRdf/Quad.php:117-119 | replaces the object only |
| `Quads.WithGraph` | src/simpleRdf/Quad.php:121-123 | replaces the graph only; a missing graph means the default graph |
| `Quads.DefaultGraphOmitted` | src/simpleRdf/Quad.php:63-75 | a quad in the default graph prints as its subject, predicate and object only |
| `Quads.NamedGraphPrinted` | src/simpleRdf/Quad.php:63-75 | a quad in a named graph prints all four positions with nothing trimmed |
| `Quads.QuotedSubjectPrinted` | src/simpleRdf/Quad.php:68-70 | a quoted subject prints in full between `<<` and `>>` at the start of the string |
| `Quads.QuotedObjectPrinted` | src/simpleRdf/Quad.php:71-73 | a quoted object prints in full between `<<` and `>>`, right after the subject and the predicate |
| `QuadTemplates.MakeTemplate` | src/simpleRdf/QuadTemplate.php:60-78 | fails when all four positions are unset, or when the subject is a literal; otherwise keeps the positions, with a default graph stored as a wildcard |
| `QuadTemplates.SameTemplateIsEquality` | src/simpleRdf/QuadTemplate.php:88-98 | template-vs-template `equals` holds iff each position is unset on both sides or set to equal terms, which is value equality |
| `QuadTemplates.MatchesIffAgreesOnSetPositions` | src/simpleRdf/QuadTemplate.php:99-104 | a template matches a quad iff every set position equals the quad's; unset positions match anything |
| `QuadTemplates.TemplateOfQuadSelects` | src/simpleRdf/QuadTemplate.php:71-73 | the template of a quad's four positions selects that quad only, except that the default graph turns into a wildcard |
| `QuadTemplates.DefaultGraphOnlyTemplateMatchesAll` | src/simpleRdf/QuadTemplate.php:65-73 | a template given only the default graph passes the all-unset check and then matches every quad |
| `QuadTemplates.EqualsNonQuadTermIsFalse` | src/simpleRdf/QuadTemplate.php:106 | `equals` against a term that is neither a template nor a quad is false |
| `QuadTemplates.WithSubject` | src/simpleRdf/QuadTemplate.php:129-131 | rebuilds with the new subject and the other positions kept; fails exactly when the template would be empty or the subject a literal |
| `QuadTemplates.WithPredicate` | src/simpleRdf/QuadTemplate.php:133-135 | rebuilds with the new predicate and the other positions kept; fails exactly when the template would be empty |
| `QuadTemplates.WithObject` | src/simpleRdf/QuadTemplate.php:137-139 | rebuilds with the new object and the other positions kept; fails exactly when the template would be empty |
| `QuadTemplates.WithGraphIri` | src/simpleRdf/QuadTemplate.php:141-143 | rebuilds with the new graph, a default graph becoming a wildcard; fails exactly when the template would be empty |
| `Namespaces.Lookup` | src/simpleRdf/RdfNamespace.php:62-67 | a found prefix is bound to the name; not found means no binding has that name |
| `Namespaces.Bind` | src/simpleRdf/RdfNamespace.php:54 | assigning keeps short names distinct and introduces no binding other than the one assigned |
| `Namespaces.Unbind` | src/simpleRdf/RdfNamespace.php:59 | `unset` leaves no binding of the name and only bindings that were there before, with names kept distinct |
| `Namespaces.FindName` | src/simpleRdf/RdfNamespace.php:94 | `array_search` finds a name bound to the prefix, and finds none only when no name is |
| `Namespaces.LookupAfterBind` | src/simpleRdf/RdfNamespace.php:49-56 | after binding a name, looking it up gives the new prefix, and every other name is unaffected |
| `Namespaces.LookupAfterUnbind` | src/simpleRdf/RdfNamespace.php:58-60 | after removing a name it is unknown, and every other name is unaffected |
| `Namespaces.FoundNameLooksUpPrefix` | src/simpleRdf/RdfNamespace.php:94 | the name `array_search` finds for a prefix is bound to that prefix |
| `Namespaces.AutoName` | src/simpleRdf/RdfNamespace.php:51 | a generated name is "n" followed by digits, so it never contains ':' |
| `Namespaces.AutoNamesDistinct` | src/simpleRdf/RdfNamespace.php:50-53 | different counter values give different names |
| `Namespaces.Expansion` | src/simpleRdf/RdfNamespace.php:73-83 | fails with `BadMethodCallException` exactly when there is no ':'; a result is a bound prefix followed by what comes after the alias and its ':' |
| `Namespaces.ExpandJoined` | src/simpleRdf/RdfNamespace.php:73-83 | `name:rest`, with a name free of ':', expands to the name's prefix followed by `rest`, or fails for an unknown alias |
| `Namespaces.LastSeparator` | src/simpleRdf/RdfNamespace.php:88 | the last position holding '/' or '#', with none after it; absent when there is none |
| `Namespaces.SplitPoint` | src/simpleRdf/RdfNamespace.php:86-93 | `shorten` cuts after the last separator before the final character; without one it cuts after the first character, and an IRI of two or more characters always keeps a non-empty local part |
| `Namespaces.NoSeparatorCutsAfterFirstChar` | src/simpleRdf/RdfNamespace.php:88-93 | an IRI with no '/' or '#' is cut after its first character (`false + 1` is 1 in PHP) |
| `Namespaces.Shortened` | src/simpleRdf/RdfNamespace.php:85-105 | the result is the name bound to the cut-off prefix, or a fresh one, followed by ':' and the rest; it fails, changing nothing, exactly when the prefix is unknown and `create` is false |
| `Namespaces.ShortenThenExpand` | src/simpleRdf/RdfNamespace.php:73-105 | expanding the result of `shorten`, against the map it leaves behind, gives back the IRI whenever the short name used has no ':' |
| `Namespaces.AutoNameMayReplaceGivenName` | src/simpleRdf/RdfNamespace.php:49-56 | a counter name can overwrite a binding the caller made under the same name |
| `Namespaces.RdfNamespace.constructor` | src/simpleRdf/RdfNamespace.php:41-47 | an empty map with the counter at 0 |
| `Namespaces.RdfNamespace.Add` | src/simpleRdf/RdfNamespace.php:49-56 | binds the prefix to the given name, or to a new counter name that advances the counter; afterwards `get` of the name returns the prefix |
| `Namespaces.RdfNamespace.Remove` | src/simpleRdf/RdfNamespace.php:58-60 | unbinds the name, after which `get` fails; the counter stays |
| `Namespaces.RdfNamespace.Get` | src/simpleRdf/RdfNamespace.php:62-67 | the prefix bound to the name, or `OutOfBoundsException` exactly when none is |
| `Namespaces.RdfNamespace.Expand` | src/simpleRdf/RdfNamespace.php:73-83 | the named node of a prefixed name, with both failure cases |
| `Namespaces.RdfNamespace.Shorten` | src/simpleRdf/RdfNamespace.php:85-105 | the outcome and new state are those of `Shortened`, and `Expand` of the result gives back the IRI |
| `Storage.QuadsOf` | src/simpleRdf/Dataset.php:61 | the stored quads in iteration order |
| `Storage.AppendNew` | src/simpleRdf/Dataset.php:96-107 | `add`'s outer loop: the old quads are a prefix of the result, which holds exactly the old and the added quads, and stays duplicate-free |
| `Storage.AppendNewPresent` | src/simpleRdf/Dataset.php:96-107 | adding only quads that are already stored changes nothing |
| `Storage.AppendNewIdempotent` | src/simpleRdf/Dataset.php:96-107 | adding the same batch twice is adding it once |
| `Storage.AppendNewFresh` | src/simpleRdf/Dataset.php:104-106 | distinct quads that are not yet stored are appended in input order |
| `Storage.AppendWellKeyed` | src/simpleRdf/Dataset.php:105 | `$quads[] = $q` of a new quad keeps keys ascending and below the next key, and quads distinct |
| `Storage.Erase` | src/simpleRdf/Dataset.php:148 | the quads without one of them; on distinct quads exactly one fewer when it was present |
| `Storage.RemoveKeys` | src/simpleRdf/Dataset.php:146-149 | the entries whose key is not removed, and only those |
| `Storage.RemoveKeysKeepsOrder` | src/simpleRdf/Dataset.php:148 | `unset` keeps keys ascending and quads distinct |
| `Storage.Unset` | src/simpleRdf/Dataset.php:148 | `unset($quads[$k])` keeps every entry with another key and no entry with that key |
| `Storage.RemoveKeysTwice` | src/simpleRdf/Dataset.php:146-149 | unsetting keys in two rounds is unsetting them all at once |
| `Storage.RemoveAbsentKeys` | src/simpleRdf/Dataset.php:148 | unsetting keys no entry has changes nothing |
| `Storage.UnsetErases` | src/simpleRdf/Dataset.php:171 | unsetting a stored entry's key removes exactly its quad from the stored quads |
| `Storage.ErasedAbsent` | src/simpleRdf/Dataset.php:148 | removing a quad that is not there changes nothing |
| `Storage.Numbered` | src/simpleRdf/Dataset.php:176 | `array_values` keeps the quads in order under keys 0, 1, 2, ... |
| `Storage.NumberedWellKeyed` | src/simpleRdf/Dataset.php:176 | renumbered distinct quads satisfy the storage invariant, with the count as next key |
| `Storage.WithoutPosition` | src/simpleRdf/Dataset.php:275 | the sequence without the element at a position; unchanged past the end |
| `Storage.WithoutPositionDistinct` | src/simpleRdf/Dataset.php:275 | removing a position keeps distinct elements distinct |
| `Storage.Splice` | src/simpleRdf/Dataset.php:275 | `array_splice($quads, $offset, 1)` removes the quad at *position* `$offset` and renumbers from 0 |
| `Storage.SpliceWellKeyed` | src/simpleRdf/Dataset.php:275 | what `array_splice` leaves satisfies the storage invariant |
| `Storage.Rewrite` | src/simpleRdf/Dataset.php:169-175 | `forEach`'s rounds keep the stored quads distinct |
| `Storage.RewriteMembership` | src/simpleRdf/Dataset.php:168-176 | when no callback result is one of the snapshotted quads, a quad is stored afterwards iff it was stored and not snapshotted, or was returned by the callback |
| `Storage.FoldLeftAppend` | src/simpleRdf/Dataset.php:296-299 | folding over two parts in turn is folding over the whole |
| `Matching.Select` | src/simpleRdf/Dataset.php:413-418 | the selection is drawn from the entries and no longer than them |
| `Matching.SelectNonEmpty` | src/simpleRdf/Dataset.php:419-421 | something is selected iff the test gives the wanted answer at some position |
| `Matching.SelectMember` | src/simpleRdf/Dataset.php:413-418 | an entry is selected iff the test at its position gives the wanted answer |
| `Matching.SelectKeepsOrder` | src/simpleRdf/Dataset.php:413-418 | the selection keeps keys ascending and quads distinct |
| `Matching.SelectQuads` | src/simpleRdf/Dataset.php:413-418 | for a filter that ignores position, a quad is selected iff it is stored and passes the test |
| `Matching.SelectPartition` | src/simpleRdf/Dataset.php:429-438 | unsetting the matching entries leaves exactly the non-matching ones, in order |
| `Matching.SelectAll` | src/simpleRdf/Dataset.php:316-326 | everything is selected iff the test gives the wanted answer everywhere |
| `Matching.Find` | src/simpleRdf/Dataset.php:405-422 | succeeds with a non-empty list of stored entries iff the offset is not a non-zero integer and some quad matches; every failure is an `OutOfBoundsException` |
| `Matching.Matched` | src/simpleRdf/Dataset.php:112-118 | what an all-matches operation visits: stored entries, none when `findMatchingQuads` throws |
| `Matching.NotMatched` | src/simpleRdf/Dataset.php:429-438 | the entries the test rejects, all stored entries |
| `Matching.Unique` | src/simpleRdf/Dataset.php:474-479 | the single match is a stored entry; failures are `OutOfBoundsException`s |
| `Matching.UniqueIffOneMatch` | src/simpleRdf/Dataset.php:204-212 | `exists` holds iff the offset is not a non-zero integer and exactly one entry matches, and that entry passes the test |
| `Matching.InCollectionIsMembership` | src/simpleRdf/Dataset.php:450-458 | the collection test holds iff the quad is in the collection |
| `Matching.MatchedQuads` | src/simpleRdf/Dataset.php:405-422 | for a filter that ignores position, a quad is visited iff it is stored and matches |
| `Matching.SelectSameQuad` | src/simpleRdf/Dataset.php:446-449 | a quad filter selects one entry if the quad is stored and none otherwise |
| `Matching.UniqueSameQuad` | src/simpleRdf/Dataset.php:204-212 | `offsetExists($quad)` holds iff the quad is stored |
| `Matching.MatchFunction` | src/simpleRdf/Dataset.php:440-466 | the function built for a filter answers as the test does: a constant for null, the callback, `equals`, membership, or position 0 only for offset 0 |
| `Datasets.Parts` | src/simpleRdf/Dataset.php:380 | the chosen position of each quad, in order |
| `Datasets.Mapped` | src/simpleRdf/Dataset.php:285 | the callback's result for each quad, in order |
| `Datasets.NonBlankQuads` | src/simpleRdf/Dataset.php:71 | the quads whose subject and object are not blank nodes, distinct when the input is |
| `Datasets.Dataset.constructor` | src/simpleRdf/Dataset.php:57 | an empty array |
| `Datasets.Dataset.Add` | src/simpleRdf/Dataset.php:92-108 | the stored quads become `AppendNew` of the old ones and the batch; old entries are untouched and new ones take consecutive fresh keys, so a dataset keyed 0, 1, 2, ... stays keyed that way |
| `Datasets.Dataset.Stored` | src/simpleRdf/Dataset.php:98-103 | the inner loop finds a match iff the quad is stored |
| `Datasets.Dataset.Append` | src/simpleRdf/Dataset.php:105 | stores a new quad under the next key and keeps the invariant |
| `Datasets.Dataset.FindMatchingQuads` | src/simpleRdf/Dataset.php:405-422 | the loop computes `Find` |
| `Datasets.Dataset.FindNotMatchingQuads` | src/simpleRdf/Dataset.php:429-438 | the loop computes `NotMatched` |
| `Datasets.Dataset.Collect` | src/simpleRdf/Dataset.php:113-115 | adding the visited quads to a new dataset stores exactly them, in order, under keys 0, 1, 2, ... |
| `Datasets.Dataset.Copy` | src/simpleRdf/Dataset.php:110-120 | a new dataset with the matching quads under keys 0, 1, 2, ..., empty when nothing matches; the receiver is not modified |
| `Datasets.Dataset.CopyExcept` | src/simpleRdf/Dataset.php:122-128 | a new dataset with the non-matching quads under keys 0, 1, 2, ... |
| `Datasets.Dataset.Extract` | src/simpleRdf/Dataset.php:146-149 | the removal loop returns the visited quads and unsets exactly their keys |
| `Datasets.Dataset.Delete` | src/simpleRdf/Dataset.php:143-154 | returns the matching quads; what stays is the non-matching entries under their old keys, or everything when nothing matches |
| `Datasets.Dataset.DeleteExcept` | src/simpleRdf/Dataset.php:156-163 | returns the non-matching quads and keeps the matching entries under their old keys |
| `Datasets.Dataset.Union` | src/simpleRdf/Dataset.php:130-135 | a new dataset holding exactly the quads of either operand, the receiver's first, under keys 0, 1, 2, ... |
| `Datasets.Dataset.Xor` | src/simpleRdf/Dataset.php:137-141 | a new dataset holding exactly the quads in one operand but not both; its entries are those of the numbered union that `delete` leaves, with their gaps |
| `Datasets.Dataset.UnsetEntry` | src/simpleRdf/Dataset.php:171 | unsetting a stored entry removes exactly its quad and keeps the other entries |
| `Datasets.Dataset.UnsetAndAdd` | src/simpleRdf/Dataset.php:170-174 | one round of `forEach`: the quad goes and the callback's result, if any, is added |
| `Datasets.Dataset.ForEach` | src/simpleRdf/Dataset.php:165-180 | without a match nothing changes; otherwise the snapshot's quads are rewritten in order and the array is renumbered from 0 |
| `Datasets.Dataset.RewriteEach` | src/simpleRdf/Dataset.php:169-175 | the loop over the snapshot computes `Rewrite` |
| `Datasets.Dataset.Count` | src/simpleRdf/Dataset.php:190-192 | the number of stored quads |
| `Datasets.Dataset.Exists` | src/simpleRdf/Dataset.php:200-212 | for a quad, template, callback or integer offset: true iff the offset is not a non-zero integer and exactly one quad matches |
| `Datasets.Dataset.Get` | src/simpleRdf/Dataset.php:219-234 | for a quad, template, callback or integer offset: the single matching quad, which is stored; no match, several matches or a non-zero offset throw `OutOfBoundsException` |
| `Datasets.Dataset.Set` | src/simpleRdf/Dataset.php:250-259 | for a quad, template or callback: needs exactly one match and otherwise changes nothing; the match is replaced by the value unless the two are equal: the match's key is unset, every other entry keeps its key, and a value not yet stored is appended under the next free key |
| `Datasets.Dataset.OffsetSet` | src/simpleRdf/Dataset.php:242-248 | a null offset adds the value, appended under the next free key unless already stored; a quad, template or callback offset is `set`, with the same entries as `set` |
| `Datasets.Dataset.OffsetUnset` | src/simpleRdf/Dataset.php:266-277 | no match: no change; several: `OutOfBoundsException` and no change; one: `array_splice` at the matched key (as written, see Findings) |
| `Datasets.Dataset.OffsetUnsetByKey` | src/simpleRdf/Dataset.php:266-277 | as intended: the one matching quad's key is unset and every other entry keeps its key |
| `Datasets.Dataset.Map` | src/simpleRdf/Dataset.php:279-291 | a new dataset with the callback's result for each matching quad, duplicates dropped, under keys 0, 1, 2, ... |
| `Datasets.Dataset.Reduce` | src/simpleRdf/Dataset.php:293-304 | the callback folded left over the matching quads, starting from the initial value |
| `Datasets.Dataset.Any` | src/simpleRdf/Dataset.php:306-314 | for a non-null, non-integer filter: true iff some quad matches |
| `Datasets.Dataset.None` | src/simpleRdf/Dataset.php:328-336 | exactly the negation of `any` |
| `Datasets.Dataset.Every` | src/simpleRdf/Dataset.php:316-326 | for a non-null, non-integer filter: true iff the dataset is non-empty and every quad matches |
| `Datasets.Dataset.Spotted` | src/simpleRdf/Dataset.php:382-387 | the inner loop finds an equal term iff one is already listed |
| `Datasets.Dataset.ListQuadElement` | src/simpleRdf/Dataset.php:375-396 | the chosen positions of the matching quads, each once, in first-seen order |
| `Datasets.Dataset.Equals` | src/simpleRdf/Dataset.php:67-85 | true iff every non-blank quad of `other` is stored here and both hold equally many non-blank quads |
| `Datasets.Dataset.ContainsNonBlank` | src/simpleRdf/Dataset.php:70-77 | the first loop: whether every non-blank quad of `other` is stored, and how many there are |
| `Datasets.Dataset.CountNonBlank` | src/simpleRdf/Dataset.php:79-83 | the second loop counts the non-blank quads |
| `Datasets.Dataset.ToString` | src/simpleRdf/Dataset.php:59-65 | each stored quad's string followed by a newline |
| `Datasets.RemainingQuads` | src/simpleRdf/Dataset.php:143-154 | for a filter that ignores position, a quad survives `delete` iff it was stored and does not match |
| `Datasets.XorQuads` | src/simpleRdf/Dataset.php:137-141 | deleting the common quads from the union leaves exactly the quads in one operand but not both |
| `Datasets.PartsMembership` | src/simpleRdf/Dataset.php:375-396 | a term is listed iff it is the chosen position of some listed quad |
| `Datasets.DeleteSplits` | src/simpleRdf/Dataset.php:143-154 | each stored entry is either deleted or stays, never both |
| `Datasets.CopySplits` | src/simpleRdf/Dataset.php:110-128 | `copy` and `copyExcept` split the stored quads into matching and non-matching |
| `Datasets.NullFilterSelectsAll` | src/simpleRdf/Dataset.php:411 | a null filter makes `copy` and `copyExcept` both take every quad |
| `Datasets.SetCount` | src/simpleRdf/Dataset.php:255-258 | `set` lowers the count by one when the replacement is already stored and differs from the match; otherwise the count is unchanged |
| `Datasets.EqualsIffSameNonBlankQuads` | src/simpleRdf/Dataset.php:67-85 | `equals`' two counting loops hold iff both datasets store the same non-blank quads |
| `Datasets.LinesAppend` | src/simpleRdf/Dataset.php:59-65 | the string of two parts is the strings of the parts, one after the other |
| `Datasets.EraseAt` | src/simpleRdf/Dataset.php:275 | on distinct quads, removing the element at a position is removing that quad |
| `Datasets.SpliceByKeyWithoutGaps` | src/simpleRdf/Dataset.php:275 | while keys equal positions, splicing at the matched key removes the matched quad |
| `Datasets.OffsetUnsetAfterDeleteRemovesWrongQuad` | src/simpleRdf/Dataset.php:266-277 | after `delete` leaves a gap, `offsetUnset` of a stored quad splices out that quad's neighbour |

## Left out

- Floating-point literals (`xsd:decimal`) and PHP's float-to-string forms are not modelled; `Native` has integers, booleans and strings only.
- `Stringable` values given to `Literal` are not modelled.
- PHP `empty()` treats the string "0" as empty. The model treats only the empty string (or a missing value) as empty, for language tags, datatypes, blank-node ids and short names.
- `array_search` compares with loose `==`; the model compares prefixes with string equality.
- `null` elements in a batch given to `add`, and the `$i !== null` test in `equals`, are not modelled: batches are sequences of quads.
- Callbacks are pure functions of the quad. Their second argument, the dataset itself (`$fn($q, $this)`), and any side effects are left out.
- `findMatchingQuads` and `findNotMatchingQuads` are generators. The model computes the whole list of matches first, so it does not capture the interleaving of callback calls with the caller's `unset`s.
- Object identity and aliasing are not modelled. Quads and terms are values, and a collection filter is a sequence of quads.
- `getIterator`, `GenericQuadIterator`, `GenericTermIterator` and the `listSubjects`/`listPredicates`/`listObjects`/`listGraphs` wrappers are left out; `ListQuadElement` takes the position as a `Part`.
- `DataFactory`, `NamedNode`, `DefaultGraph` and the `rdfHelpers` classes are not part of this model. A named node is an IRI string that prints as `<iri>`, and the default graph prints as nothing. `DataFactory::literal`, `quad` and `quadTemplate` are taken to call the constructors.
- `QuadTemplate::equals` against a quad calls `getGraphIri()` on the quad (`src/simpleRdf/QuadTemplate.php:104`), but `Quad` only has `getGraph()`. The model compares with the quad's graph, as intended.
- `QuadTemplate::__toString` (src/simpleRdf/QuadTemplate.php:80-82) and `getType` are left out; they have no behaviour beyond string joining.
- `Terms.Value` models `getValue()` of every term; it carries no contract of its own, and `BlankNodes.BlankNodeValueIsString` and `Literals.IntegerLiteralRoundTrip` state what it gives.
- `Literal::getValue` with a cast other than the lexical form throws; only the lexical form is modelled.
- PHP integers are 64-bit and the model's are unbounded. The array's next key and the blank-node and namespace counters cannot overflow in the model.
- An integer filter is modelled as `Offset(n)`. The source's `static $n` in the offset-0 closure is modelled as "position 0 only", which is what a fresh closure does on each call to `findMatchingQuads`.
- Filter arguments follow the PHP parameter types; a value of another kind is a `TypeError` in PHP and a precondition in the model. `Delete`, `DeleteExcept`, `Any`, `None` and `Every` take a quad, template, callback or quad collection but not `null` or an integer. `Copy`, `CopyExcept`, `ForEach`, `Map`, `Reduce` and `ListQuadElement` also take `null`, but not an integer. `Exists` and `Get` take a quad, template, callback or integer, not a quad collection or `null`. `Set` and a non-null `OffsetSet` offset take a quad, template or callback only. `OffsetUnset` is untyped and takes every kind. The `TypeError` path itself is not modelled.
- `Datasets.Dataset.Every` follows the code: on an empty dataset it is false, because `findMatchingQuads` throws and the exception becomes `false`. It is not vacuously true.
- `Datasets.Dataset.Delete` and `Datasets.Dataset.DeleteExcept` leave gaps in the keys, as the code does. Only `forEach` and `offsetUnset` renumber.
- `BlankNodes.BlankNodeFactory.NewBlankNode` owns its counter. In PHP the counter is a static shared by the whole process, so a supplied id "_:genid0" can collide with a generated one; the model does not exclude that either.

## Findings

| source | as written | input that shows it | evidently intended | confidence | as-written member | corrected member |
|---|---|---|---|---|---|---|
| src/simpleRdf/Dataset.php:275 | `offsetUnset` passes the matched array *key* to `array_splice`, which takes a *position* | store a, b, c (keys 0, 1, 2); `delete(a)` leaves b and c under keys 1 and 2; `offsetUnset(b)` matches key 1, and `array_splice($quads, 1, 1)` removes c (position 1), keeping b | remove the matched quad (`unset($this->quads[$match])`) | not executed | `Datasets.Dataset.OffsetUnset`, `Datasets.OffsetUnsetAfterDeleteRemovesWrongQuad` | `Datasets.Dataset.OffsetUnsetByKey` |
