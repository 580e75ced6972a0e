/**
 * The dataset's matcher pipeline: the filter kinds, the per-quad test built
 * from a filter, and the entries that findMatchingQuads() and
 * findNotMatchingQuads() yield.
 */
module Matching {
  import opened Wrappers
  import opened Errors
  import opened Terms
  import opened QuadTemplates
  import opened Storage

  /**
   * A filter: a callback, a quad, a quad template, a collection of quads or
   * an integer offset. A missing filter (PHP null) is the Option's None.
   */
  datatype Matcher =
    | Callback(f: Quad -> bool)
    | SameQuad(quad: Quad)
    | Pattern(template: QuadTemplate)
    | AnyOf(quads: seq<Quad>)
    | Offset(offset: int)

  /** The collection test: some element of the collection equals x. */
  predicate InCollection(qs: seq<Quad>, x: Quad)
  {
    exists j :: 0 <= j < |qs| && QuadsEqual(qs[j], x)
  }

  /**
   * The function prepareMatchFunction() builds, applied to the quad at
   * position pos of the iteration. A missing filter answers nullMeans; the
   * offset function answers true on its first call only.
   */
  predicate Hit(filter: Option<Matcher>, nullMeans: bool, pos: nat, q: Quad)
  {
    match filter
    case None => nullMeans
    case Some(Callback(f)) => f(q)
    case Some(SameQuad(x)) => QuadsEqual(x, q)
    case Some(Pattern(t)) => QuadTemplates.Matches(t, q)
    case Some(AnyOf(qs)) => InCollection(qs, q)
    case Some(Offset(_)) => pos == 0
  }

  /** A filter whose answer does not depend on the position of the quad. */
  predicate PositionFree(filter: Option<Matcher>)
  {
    !(filter.Some? && filter.value.Offset?)
  }

  /** The entries, in order, on which the test gives want. */
  function Select(es: seq<Entry>, filter: Option<Matcher>, nullMeans: bool, want: bool): (r: seq<Entry>)
    ensures |r| <= |es|
    ensures forall e :: e in r ==> e in es
  {
    if es == [] then []
    else
      var t := Select(es[..|es| - 1], filter, nullMeans, want);
      var e := es[|es| - 1];
      assert forall f :: f in es[..|es| - 1] ==> f in es;
      if Hit(filter, nullMeans, |es| - 1, e.quad) == want then t + [e] else t
  }

  lemma SelectSnoc(es: seq<Entry>, e: Entry, filter: Option<Matcher>, nullMeans: bool, want: bool)
    ensures Select(es + [e], filter, nullMeans, want) ==
      if Hit(filter, nullMeans, |es|, e.quad) == want then Select(es, filter, nullMeans, want) + [e]
      else Select(es, filter, nullMeans, want)
  {
    assert (es + [e])[..|es|] == es;
  }

  /** One round of a loop over es that collects the entries the test gives want for. */
  lemma SelectStep(es: seq<Entry>, i: nat, filter: Option<Matcher>, nullMeans: bool, want: bool)
    requires i < |es|
    ensures Select(es[..i + 1], filter, nullMeans, want) ==
      if Hit(filter, nullMeans, i, es[i].quad) == want then Select(es[..i], filter, nullMeans, want) + [es[i]]
      else Select(es[..i], filter, nullMeans, want)
  {
    assert es[..i + 1] == es[..i] + [es[i]];
    SelectSnoc(es[..i], es[i], filter, nullMeans, want);
  }

  /** findMatchingQuads(): a non-zero offset is refused, and finding nothing is an error too. */
  function Find(es: seq<Entry>, filter: Option<Matcher>): (r: Result<seq<Entry>, Error>)
    ensures r.Failure? ==> IsOutOfBounds(r.error)
    ensures r.Success? ==> |r.value| > 0 && forall e :: e in r.value ==> e in es
    ensures r.Success? <==> !(filter.Some? && filter.value.Offset? && filter.value.offset != 0) &&
                            exists i :: 0 <= i < |es| && Hit(filter, true, i, es[i].quad)
  {
    if filter.Some? && filter.value.Offset? && filter.value.offset != 0 then Failure(BadOffset)
    else
      var m := Select(es, filter, true, true);
      SelectNonEmpty(es, filter, true, true);
      if m == [] then Failure(NoMatch) else Success(m)
  }

  /** What an all-matches operation iterates over: the matches, or nothing when findMatchingQuads() throws. */
  function Matched(es: seq<Entry>, filter: Option<Matcher>): (r: seq<Entry>)
    ensures forall e :: e in r ==> e in es
  {
    match Find(es, filter)
    case Success(m) => m
    case Failure(_) => []
  }

  /** findNotMatchingQuads(): the entries the test rejects, a missing filter rejecting every quad. */
  function NotMatched(es: seq<Entry>, filter: Option<Matcher>): (r: seq<Entry>)
    ensures forall e :: e in r ==> e in es
  {
    Select(es, filter, false, false)
  }

  /** findMatchingQuads() followed by checkIteratorEnd(): the one matching entry. */
  function Unique(es: seq<Entry>, filter: Option<Matcher>): (r: Result<Entry, Error>)
    ensures r.Failure? ==> IsOutOfBounds(r.error)
    ensures r.Success? ==> r.value in es
  {
    match Find(es, filter)
    case Failure(err) => Failure(err)
    case Success(m) => if |m| > 1 then Failure(Ambiguous) else Success(m[0])
  }

  /** The selection is nonempty exactly when the test gives want somewhere. */
  lemma {:induction false} SelectNonEmpty(es: seq<Entry>, filter: Option<Matcher>, nullMeans: bool, want: bool)
    ensures Select(es, filter, nullMeans, want) != [] <==> exists i :: 0 <= i < |es| && Hit(filter, nullMeans, i, es[i].quad) == want
  {
    if es != [] {
      var init := es[..|es| - 1];
      SelectNonEmpty(init, filter, nullMeans, want);
      assert forall i :: 0 <= i < |init| ==> init[i] == es[i];
    }
  }

  /** With ascending keys, an entry is selected exactly when the test at its position gives want. */
  lemma {:induction false} SelectMember(es: seq<Entry>, filter: Option<Matcher>, nullMeans: bool, want: bool, p: nat)
    requires Ascending(es) && p < |es|
    ensures es[p] in Select(es, filter, nullMeans, want) <==> Hit(filter, nullMeans, p, es[p].quad) == want
  {
    var init := es[..|es| - 1];
    var e := es[|es| - 1];
    assert es == init + [e];
    LastAbove(init, e);
    SelectSnoc(init, e, filter, nullMeans, want);
    if p < |es| - 1 {
      assert init[p] == es[p] && init[p] in init;
      SelectMember(init, filter, nullMeans, want, p);
    } else {
      assert e !in Select(init, filter, nullMeans, want);
    }
  }

  /** The selection keeps the keys ascending and the quads distinct. */
  lemma {:induction false} SelectKeepsOrder(es: seq<Entry>, filter: Option<Matcher>, nullMeans: bool, want: bool)
    requires Ascending(es)
    ensures Ascending(Select(es, filter, nullMeans, want))
    ensures DistinctQuads(es) ==> DistinctQuads(Select(es, filter, nullMeans, want))
  {
    if es != [] {
      var init := es[..|es| - 1];
      var e := es[|es| - 1];
      assert es == init + [e];
      LastAbove(init, e);
      SelectKeepsOrder(init, filter, nullMeans, want);
      var t := Select(init, filter, nullMeans, want);
      SelectSnoc(init, e, filter, nullMeans, want);
      LastAboveSub(init, t, e);
      if Hit(filter, nullMeans, |init|, e.quad) == want {
        AscendingSnoc(t, e);
        if DistinctQuads(es) {
          DistinctQuadsSnoc(t, e);
        }
      }
    }
  }

  /** For a filter that ignores positions, a quad is in the selection iff it is stored and the test gives want. */
  lemma {:induction false} SelectQuads(es: seq<Entry>, filter: Option<Matcher>, nullMeans: bool, want: bool, x: Quad)
    requires PositionFree(filter)
    ensures x in QuadsOf(Select(es, filter, nullMeans, want)) <==> x in QuadsOf(es) && Hit(filter, nullMeans, 0, x) == want
  {
    if es != [] {
      var init := es[..|es| - 1];
      var e := es[|es| - 1];
      SelectQuads(init, filter, nullMeans, want, x);
      assert Hit(filter, nullMeans, |init|, e.quad) == Hit(filter, nullMeans, 0, e.quad);
      QuadsOfLastMember(es, x);
      QuadsOfSnocMember(Select(init, filter, nullMeans, want), e, x);
    }
  }

  /** A key larger than every key of es belongs to none of its entries. */
  lemma KeyAboveAll(es: seq<Entry>, k: nat)
    requires forall i :: 0 <= i < |es| ==> es[i].key < k
    ensures k !in KeySet(es)
    ensures RemoveKeys(es, {k}) == es
  {
    RemoveAbsentKeys(es, {k});
  }

  /** Keys below a bound stay below it in any selection or removal. */
  lemma KeysBelow(es: seq<Entry>, sub: seq<Entry>, k: nat)
    requires forall i :: 0 <= i < |es| ==> es[i].key < k
    requires forall e :: e in sub ==> e in es
    ensures forall i :: 0 <= i < |sub| ==> sub[i].key < k
  {
    forall i | 0 <= i < |sub| ensures sub[i].key < k {
      assert sub[i] in es;
    }
  }

  lemma KeySetSnoc(es: seq<Entry>, e: Entry)
    ensures KeySet(es + [e]) == KeySet(es) + {e.key}
  {
    var s := es + [e];
    forall k | k in KeySet(s) ensures k in KeySet(es) + {e.key} {
      var i :| 0 <= i < |s| && s[i].key == k;
      if i < |es| {
        assert s[i] == es[i];
      }
    }
    forall k | k in KeySet(es) ensures k in KeySet(s) {
      var i :| 0 <= i < |es| && es[i].key == k;
      assert s[i] == es[i];
    }
    assert s[|es|] == e;
  }

  lemma PartitionStepHit(init: seq<Entry>, e: Entry, hits: seq<Entry>, rest: seq<Entry>)
    requires forall i :: 0 <= i < |init| ==> init[i].key < e.key
    requires forall f :: f in hits ==> f in init
    requires rest == RemoveKeys(init, KeySet(hits))
    ensures RemoveKeys(init + [e], KeySet(hits + [e])) == rest
  {
    KeySetSnoc(hits, e);
    RemoveKeysSnoc(init, e, KeySet(hits) + {e.key});
    assert RemoveKeys(init + [e], KeySet(hits + [e])) == RemoveKeys(init, KeySet(hits) + {e.key});
    RemoveKeysTwice(init, KeySet(hits), {e.key});
    KeysBelow(init, rest, e.key);
    KeyAboveAll(rest, e.key);
  }

  lemma PartitionStepMiss(init: seq<Entry>, e: Entry, hits: seq<Entry>, rest: seq<Entry>)
    requires forall i :: 0 <= i < |init| ==> init[i].key < e.key
    requires forall f :: f in hits ==> f in init
    requires rest == RemoveKeys(init, KeySet(hits))
    ensures RemoveKeys(init + [e], KeySet(hits)) == rest + [e]
  {
    KeysBelow(init, hits, e.key);
    KeyAboveAll(hits, e.key);
    RemoveKeysSnoc(init, e, KeySet(hits));
  }

  /**
   * Removing the keys of the entries the test selects leaves exactly the
   * entries it does not: findMatchingQuads() and findNotMatchingQuads() split
   * the storage.
   */
  lemma {:induction false} SelectPartition(es: seq<Entry>, filter: Option<Matcher>, nullMeans: bool, want: bool)
    requires Ascending(es)
    ensures RemoveKeys(es, KeySet(Select(es, filter, nullMeans, want))) == Select(es, filter, nullMeans, !want)
  {
    if es != [] {
      var init := es[..|es| - 1];
      var e := es[|es| - 1];
      assert es == init + [e];
      var hits := Select(init, filter, nullMeans, want);
      SelectPartition(init, filter, nullMeans, want);
      SelectSnoc(init, e, filter, nullMeans, want);
      SelectSnoc(init, e, filter, nullMeans, !want);
      assert forall i :: 0 <= i < |init| ==> init[i].key < e.key;
      if Hit(filter, nullMeans, |init|, e.quad) == want {
        PartitionStepHit(init, e, hits, RemoveKeys(init, KeySet(hits)));
      } else {
        PartitionStepMiss(init, e, hits, RemoveKeys(init, KeySet(hits)));
      }
    }
  }

  /** Every entry is selected exactly when the selection is as long as the storage. */
  lemma {:induction false} SelectAll(es: seq<Entry>, filter: Option<Matcher>, nullMeans: bool, want: bool)
    ensures |Select(es, filter, nullMeans, want)| == |es| <==> forall i :: 0 <= i < |es| ==> Hit(filter, nullMeans, i, es[i].quad) == want
  {
    if es != [] {
      var init := es[..|es| - 1];
      SelectAll(init, filter, nullMeans, want);
      assert forall i :: 0 <= i < |init| ==> init[i] == es[i];
    }
  }

  /**
   * get(), exists() and set() succeed exactly when one stored entry passes
   * the test; zero matches, several matches and a non-zero offset are
   * out-of-bounds errors.
   */
  lemma UniqueIffOneMatch(es: seq<Entry>, filter: Option<Matcher>)
    requires Ascending(es)
    ensures Unique(es, filter).Success? <==>
      !(filter.Some? && filter.value.Offset? && filter.value.offset != 0) && |Select(es, filter, true, true)| == 1
    ensures Unique(es, filter).Success? ==> Hit(filter, true, Position(es, Unique(es, filter).value), Unique(es, filter).value.quad)
  {
    var m := Select(es, filter, true, true);
    if Unique(es, filter).Success? {
      var e := Unique(es, filter).value;
      var p := Position(es, e);
      SelectMember(es, filter, true, true, p);
    }
  }

  /** The position of a stored entry. */
  function Position(es: seq<Entry>, e: Entry): (p: nat)
    requires e in es
    ensures p < |es| && es[p] == e
  {
    if es[0] == e then 0 else 1 + Position(es[1..], e)
  }
  /** The collection test is membership, since quad equality is structural. */
  lemma InCollectionIsMembership(qs: seq<Quad>, x: Quad)
    ensures InCollection(qs, x) <==> x in qs
  {
    if x in qs {
      var j :| 0 <= j < |qs| && qs[j] == x;
      assert QuadsEqual(qs[j], x);
    }
  }

  /**
   * For a filter that ignores positions, the quads an all-matches operation
   * visits are exactly the stored quads that pass the test.
   */
  lemma MatchedQuads(es: seq<Entry>, filter: Option<Matcher>, x: Quad)
    requires PositionFree(filter)
    ensures x in QuadsOf(Matched(es, filter)) <==> x in QuadsOf(es) && Hit(filter, true, 0, x)
  {
    SelectQuads(es, filter, true, true, x);
  }

  /** With distinct quads, a single-quad filter selects one entry if the quad is stored and none otherwise. */
  lemma {:induction false} SelectSameQuad(es: seq<Entry>, q: Quad)
    requires DistinctQuads(es)
    ensures |Select(es, Some(SameQuad(q)), true, true)| == if q in QuadsOf(es) then 1 else 0
  {
    if es != [] {
      var init := es[..|es| - 1];
      var e := es[|es| - 1];
      assert es == init + [e];
      SelectSnoc(init, e, Some(SameQuad(q)), true, true);
      SelectSameQuad(init, q);
      QuadsOfSnoc(init, e);
      if e.quad == q {
        assert q !in QuadsOf(init);
      }
    }
  }

  /** exists() with a quad as the offset holds exactly when that quad is stored. */
  lemma UniqueSameQuad(es: seq<Entry>, q: Quad)
    requires Ascending(es) && DistinctQuads(es)
    ensures Unique(es, Some(SameQuad(q))).Success? <==> q in QuadsOf(es)
  {
    UniqueIffOneMatch(es, Some(SameQuad(q)));
    SelectSameQuad(es, q);
  }

  /** The function prepareMatchFunction() builds, applied to the quad at iteration position pos. */
  method MatchFunction(filter: Option<Matcher>, nullMeans: bool, pos: nat, q: Quad) returns (b: bool)
    ensures b == Hit(filter, nullMeans, pos, q)
  {
    match filter
    case None =>
      b := nullMeans;
    case Some(Callback(f)) =>
      b := f(q);
    case Some(SameQuad(x)) =>
      b := QuadsEqual(x, q);
    case Some(Pattern(t)) =>
      b := QuadTemplates.Matches(t, q);
    case Some(AnyOf(qs)) =>
      b := false;
      var j := 0;
      while j < |qs| && !b
        invariant 0 <= j <= |qs|
        invariant b <==> exists k :: 0 <= k < j && QuadsEqual(qs[k], q)
      {
        b := QuadsEqual(qs[j], q);
        j := j + 1;
      }
    case Some(Offset(_)) =>
      b := pos == 0;
  }
}
