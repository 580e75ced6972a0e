/**
 * The in-memory dataset: a set of quads kept in a PHP list, with the
 * operations that select, copy, delete, rewrite and query its quads.
 */
module Datasets {
  import opened Wrappers
  import opened Errors
  import opened Terms
  import opened Storage
  import opened Matching
  import opened Text

  /** The quad position listSubjects(), listPredicates(), listObjects() and listGraphs() read. */
  datatype Part = SubjectPart | PredicatePart | ObjectPart | GraphPart

  function PartOf(q: Quad, part: Part): Term
  {
    match part
    case SubjectPart => q.subject
    case PredicatePart => q.pred
    case ObjectPart => q.obj
    case GraphPart => q.graph
  }

  /** The chosen position of each quad, in order. */
  function Parts(qs: seq<Quad>, part: Part): (r: seq<Term>)
    ensures |r| == |qs| && forall i :: 0 <= i < |qs| ==> r[i] == PartOf(qs[i], part)
  {
    if qs == [] then [] else Parts(qs[..|qs| - 1], part) + [PartOf(qs[|qs| - 1], part)]
  }

  /** The callback's result for each quad, in order. */
  function Mapped(fn: Quad -> Quad, qs: seq<Quad>): (r: seq<Quad>)
    ensures |r| == |qs| && forall i :: 0 <= i < |qs| ==> r[i] == fn(qs[i])
  {
    if qs == [] then [] else Mapped(fn, qs[..|qs| - 1]) + [fn(qs[|qs| - 1])]
  }

  /** The storage after delete(): the non-matching entries, or all of them when nothing matches. */
  function Remaining(es: seq<Entry>, filter: Option<Matcher>): seq<Entry>
  {
    if Find(es, filter).Success? then Select(es, filter, true, false) else es
  }

  /** The quads set() leaves: the matched quad replaced by value, unless the two are equal. */
  function SetQuads(es: seq<Entry>, filter: Matcher, value: Quad): Result<seq<Quad>, Error>
  {
    match Unique(es, Some(filter))
    case Failure(err) => Failure(err)
    case Success(e) => Success(if e.quad == value then QuadsOf(es) else AppendNew(Erase(QuadsOf(es), e.quad), [value]))
  }

  /**
   * The entries set() leaves: the matched entry's key unset and the value
   * stored under the next free key unless it is already there; nothing
   * changes when the match equals the value.
   */
  function SetEntries(es: seq<Entry>, nextKey: nat, filter: Matcher, value: Quad): seq<Entry>
  {
    match Unique(es, Some(filter))
    case Failure(_) => es
    case Success(e) =>
      if e.quad == value then es
      else if value in QuadsOf(es) then Unset(es, e.key)
      else Unset(es, e.key) + [Entry(nextKey, value)]
  }

  /** A quad equals() looks at: neither its subject nor its object is a blank node. */
  predicate NonBlank(q: Quad)
  {
    !q.subject.BlankNode? && !q.obj.BlankNode?
  }

  function NonBlankQuads(qs: seq<Quad>): (r: seq<Quad>)
    ensures forall x :: x in r <==> x in qs && NonBlank(x)
    ensures Distinct(qs) ==> Distinct(r)
  {
    if qs == [] then []
    else
      var t := NonBlankQuads(qs[..|qs| - 1]);
      var q := qs[|qs| - 1];
      assert forall x :: x in qs <==> x in qs[..|qs| - 1] || x == q by {
        assert qs == qs[..|qs| - 1] + [q];
      }
      if NonBlank(q) then
        assert Distinct(qs) ==> q !in qs[..|qs| - 1];
        t + [q]
      else t
  }

  /** __toString(): each quad's string on its own line. */
  function Lines(qs: seq<Quad>): string
  {
    if qs == [] then "" else Lines(qs[..|qs| - 1]) + QuadString(qs[|qs| - 1]) + "\n"
  }

  class Dataset {
    /** The PHP array $quads: its entries in iteration order, and the next key an append uses. */
    var entries: seq<Entry>
    var nextKey: nat

    ghost predicate Valid()
      reads this
    {
      WellKeyed(entries, nextKey)
    }

    /** The stored quads in iteration order. */
    function Quads(): seq<Quad>
      reads this
    {
      QuadsOf(entries)
    }

    constructor ()
      ensures Valid() && entries == [] && nextKey == 0
    {
      entries := [];
      nextKey := 0;
    }

    /**
     * add(): appends, in order, each given quad not already stored; appended
     * quads take the next free keys.
     */
    method Add(qs: seq<Quad>)
      requires Valid()
      modifies this
      ensures Valid()
      ensures Quads() == AppendNew(old(Quads()), qs)
      ensures old(entries) <= entries
      ensures KeysFrom(entries, |old(entries)|, old(nextKey))
      ensures nextKey == old(nextKey) + (|entries| - |old(entries)|)
      ensures KeysFrom(old(entries), 0, 0) && old(nextKey) == |old(entries)| ==>
        KeysFrom(entries, 0, 0) && nextKey == |entries|
    {
      var i := 0;
      while i < |qs|
        invariant 0 <= i <= |qs| && Valid()
        invariant Quads() == AppendNew(old(Quads()), qs[..i])
        invariant old(entries) <= entries
        invariant KeysFrom(entries, |old(entries)|, old(nextKey))
        invariant nextKey == old(nextKey) + (|entries| - |old(entries)|)
      {
        AddNext(old(Quads()), old(entries), old(nextKey), qs, i);
        i := i + 1;
      }
      assert qs[..i] == qs;
      if KeysFrom(old(entries), 0, 0) && old(nextKey) == |old(entries)| {
        KeysFromExtend(old(entries), entries);
      }
    }

    /** One round of add()'s loop, with the loop's invariant before and after. */
    method AddNext(ghost s: seq<Quad>, ghost es: seq<Entry>, ghost first: nat, qs: seq<Quad>, i: nat)
      requires Valid() && i < |qs|
      requires Quads() == AppendNew(s, qs[..i]) && es <= entries
      requires KeysFrom(entries, |es|, first) && nextKey == first + (|entries| - |es|)
      modifies this
      ensures Valid()
      ensures Quads() == AppendNew(s, qs[..i + 1]) && es <= entries
      ensures KeysFrom(entries, |es|, first) && nextKey == first + (|entries| - |es|)
    {
      AppendNewStep(s, qs, i);
      ghost var before := entries;
      AddOne(qs[i]);
      if entries != before {
        KeysFromSnoc(before, |es|, first, entries[|before|]);
      }
    }

    /** One round of add()'s loop: q is appended under the next free key unless it is stored. */
    method AddOne(q: Quad)
      requires Valid()
      modifies this
      ensures Valid()
      ensures q in old(Quads()) ==> entries == old(entries) && nextKey == old(nextKey)
      ensures q !in old(Quads()) ==> entries == old(entries) + [Entry(old(nextKey), q)] && nextKey == old(nextKey) + 1
      ensures Quads() == if q in old(Quads()) then old(Quads()) else old(Quads()) + [q]
    {
      var found := Stored(q);
      if !found {
        Append(q);
      }
    }

    /** add()'s inner loop: whether a quad equal to q is stored. */
    method Stored(q: Quad) returns (found: bool)
      ensures found <==> q in Quads()
    {
      found := false;
      var j := 0;
      while j < |entries| && !found
        invariant 0 <= j <= |entries|
        invariant found <==> exists k :: 0 <= k < j && entries[k].quad == q
      {
        found := QuadsEqual(entries[j].quad, q);
        j := j + 1;
      }
    }

    /** `$this->quads[] = $q`: stores q under the next free key. */
    method Append(q: Quad)
      requires Valid() && q !in Quads()
      modifies this
      ensures Valid()
      ensures entries == old(entries) + [Entry(old(nextKey), q)] && nextKey == old(nextKey) + 1
      ensures Quads() == old(Quads()) + [q]
    {
      AppendWellKeyed(entries, nextKey, q);
      entries := entries + [Entry(nextKey, q)];
      nextKey := nextKey + 1;
    }

    /**
     * findMatchingQuads(): the matching entries in order. The source yields
     * keys and its callers read the quad under each key before changing that
     * key, so the entries stand for both.
     */
    method FindMatchingQuads(filter: Option<Matcher>) returns (r: Result<seq<Entry>, Error>)
      ensures r == Find(entries, filter)
    {
      if filter.Some? && filter.value.Offset? && filter.value.offset != 0 {
        return Failure(BadOffset);
      }
      var m: seq<Entry> := [];
      var n := 0;
      var i := 0;
      while i < |entries|
        invariant 0 <= i <= |entries|
        invariant m == Select(entries[..i], filter, true, true) && n == |m|
      {
        var hit := MatchFunction(filter, true, i, entries[i].quad);
        SelectStep(entries, i, filter, true, true);
        if hit {
          m := m + [entries[i]];
          n := n + 1;
        }
        i := i + 1;
      }
      assert entries[..i] == entries;
      if n == 0 {
        return Failure(NoMatch);
      }
      return Success(m);
    }

    /** findNotMatchingQuads(): the entries the filter rejects, in order; a missing filter rejects all. */
    method FindNotMatchingQuads(filter: Option<Matcher>) returns (m: seq<Entry>)
      ensures m == NotMatched(entries, filter)
    {
      m := [];
      var i := 0;
      while i < |entries|
        invariant 0 <= i <= |entries|
        invariant m == Select(entries[..i], filter, false, false)
      {
        var hit := MatchFunction(filter, false, i, entries[i].quad);
        SelectStep(entries, i, filter, false, false);
        if !hit {
          m := m + [entries[i]];
        }
        i := i + 1;
      }
      assert entries[..i] == entries;
    }

    /** The copy loop of copy() and copyExcept(): adds the quad of each entry in turn to a fresh dataset. */
    static method Collect(idx: seq<Entry>) returns (d: Dataset)
      requires DistinctQuads(idx)
      ensures fresh(d) && d.Valid() && d.Quads() == QuadsOf(idx)
      ensures d.entries == Numbered(d.Quads()) && d.nextKey == |d.entries|
    {
      d := new Dataset();
      var i := 0;
      while i < |idx|
        invariant 0 <= i <= |idx| && d.Valid()
        invariant d.Quads() == QuadsOf(idx[..i])
        invariant KeysFrom(d.entries, 0, 0) && d.nextKey == |d.entries|
      {
        CollectStep(idx, i);
        AppendNewFresh(d.Quads(), [idx[i].quad]);
        d.Add([idx[i].quad]);
        i := i + 1;
      }
      assert idx[..i] == idx;
      KeysFromZeroNumbered(d.entries);
    }

    /** copy(): a new dataset with the matching quads; nothing matching gives an empty one. */
    method Copy(filter: Option<Matcher>) returns (d: Dataset)
      requires Valid()
      requires filter.Some? ==> !filter.value.Offset?
      ensures fresh(d) && d.Valid()
      ensures d.Quads() == QuadsOf(Matched(entries, filter))
      ensures d.entries == Numbered(d.Quads()) && d.nextKey == |d.entries|
    {
      var found := FindMatchingQuads(filter);
      if found.Success? {
        SelectKeepsOrder(entries, filter, true, true);
        d := Collect(found.value);
      } else {
        d := new Dataset();
      }
    }

    /** copyExcept(): a new dataset with the quads the filter rejects. */
    method CopyExcept(filter: Option<Matcher>) returns (d: Dataset)
      requires Valid()
      requires filter.Some? ==> !filter.value.Offset?
      ensures fresh(d) && d.Valid()
      ensures d.Quads() == QuadsOf(NotMatched(entries, filter))
      ensures d.entries == Numbered(d.Quads()) && d.nextKey == |d.entries|
    {
      var idx := FindNotMatchingQuads(filter);
      SelectKeepsOrder(entries, filter, false, false);
      d := Collect(idx);
    }

    /**
     * The removal loop of delete() and deleteExcept(): moves the quad of
     * each listed entry into a fresh dataset and unsets its key.
     */
    method Extract(idx: seq<Entry>) returns (deleted: Dataset)
      requires Valid() && Ascending(idx) && DistinctQuads(idx)
      requires forall e :: e in idx ==> e in entries
      modifies this
      ensures Valid() && fresh(deleted) && deleted.Valid()
      ensures deleted.Quads() == QuadsOf(idx)
      ensures entries == RemoveKeys(old(entries), KeySet(idx)) && nextKey == old(nextKey)
    {
      deleted := new Dataset();
      var i := 0;
      RemoveAbsentKeys(entries, {});
      assert KeySet(idx[..0]) == {};
      while i < |idx|
        invariant 0 <= i <= |idx| && Valid() && deleted.Valid()
        invariant deleted.Quads() == QuadsOf(idx[..i])
        invariant entries == RemoveKeys(old(entries), KeySet(idx[..i])) && nextKey == old(nextKey)
      {
        ExtractStep(old(entries), idx, i);
        MoveOut(idx[i], deleted);
        i := i + 1;
      }
      assert idx[..i] == idx;
    }

    /** One round of the removal loop: add the entry's quad to deleted, then unset its key. */
    method MoveOut(e: Entry, deleted: Dataset)
      requires Valid() && deleted.Valid() && deleted != this
      requires e.quad !in deleted.Quads()
      modifies this, deleted
      ensures Valid() && deleted.Valid()
      ensures deleted.Quads() == old(deleted.Quads()) + [e.quad]
      ensures entries == Unset(old(entries), e.key) && nextKey == old(nextKey)
    {
      AppendNewFresh(deleted.Quads(), [e.quad]);
      deleted.Add([e.quad]);
      RemoveKeysKeepsOrder(entries, {e.key});
      entries := Unset(entries, e.key);
    }

    /**
     * delete(): removes the matching quads and returns them; when nothing
     * matches, nothing changes and the result is empty.
     */
    method Delete(filter: Option<Matcher>) returns (deleted: Dataset)
      requires Valid()
      requires filter.Some? && !filter.value.Offset?
      modifies this
      ensures Valid() && fresh(deleted) && deleted.Valid()
      ensures deleted.Quads() == QuadsOf(Matched(old(entries), filter))
      ensures entries == Remaining(old(entries), filter) && nextKey == old(nextKey)
    {
      var found := FindMatchingQuads(filter);
      if found.Success? {
        SelectKeepsOrder(entries, filter, true, true);
        SelectPartition(entries, filter, true, true);
        deleted := Extract(found.value);
      } else {
        deleted := new Dataset();
      }
    }

    /** deleteExcept(): removes the quads the filter rejects and returns them. */
    method DeleteExcept(filter: Option<Matcher>) returns (deleted: Dataset)
      requires Valid()
      requires filter.Some? && !filter.value.Offset?
      modifies this
      ensures Valid() && fresh(deleted) && deleted.Valid()
      ensures deleted.Quads() == QuadsOf(NotMatched(old(entries), filter))
      ensures entries == Select(old(entries), filter, false, true) && nextKey == old(nextKey)
    {
      var idx := FindNotMatchingQuads(filter);
      SelectKeepsOrder(entries, filter, false, false);
      SelectPartition(entries, filter, false, false);
      deleted := Extract(idx);
    }

    /** union(): a new dataset with this dataset's quads followed by the new ones of other. */
    method Union(other: seq<Quad>) returns (u: Dataset)
      requires Valid()
      ensures fresh(u) && u.Valid()
      ensures u.Quads() == AppendNew(Quads(), other)
      ensures forall x :: x in u.Quads() <==> x in Quads() || x in other
      ensures u.entries == Numbered(u.Quads()) && u.nextKey == |u.entries|
    {
      u := new Dataset();
      DistinctQuadsOf(entries);
      AppendNewFresh([], Quads());
      assert [] + Quads() == Quads();
      u.Add(Quads());
      u.Add(other);
      KeysFromZeroNumbered(u.entries);
    }

    /** xor(): a new dataset with the quads in exactly one of this dataset and other. */
    method Xor(other: seq<Quad>) returns (u: Dataset)
      requires Valid()
      ensures fresh(u) && u.Valid()
      ensures forall x :: x in u.Quads() <==> (x in Quads() <==> x !in other)
      ensures u.entries == Remaining(Numbered(AppendNew(Quads(), other)),
                                     Some(AnyOf(QuadsOf(Matched(entries, Some(AnyOf(other)))))))
      ensures u.nextKey == |AppendNew(Quads(), other)|
    {
      u := Union(other);
      var common := Copy(Some(AnyOf(other)));
      ghost var before := u.entries;
      var _ := u.Delete(Some(AnyOf(common.Quads())));
      forall x ensures x in u.Quads() <==> (x in Quads() <==> x !in other) {
        XorQuads(entries, other, common.Quads(), before, x);
      }
    }

    /** unset() of a stored entry's key, then add() of the replacement, if any. */
    method UnsetAndAdd(e: Entry, val: Option<Quad>)
      requires Valid() && e in entries
      modifies this
      ensures Valid()
      ensures Quads() == match val
                         case None => Erase(old(Quads()), e.quad)
                         case Some(v) => AppendNew(Erase(old(Quads()), e.quad), [v])
      ensures forall f :: f in old(entries) && f.key != e.key ==> f in entries
      ensures val.None? ==> entries == Unset(old(entries), e.key) && nextKey == old(nextKey)
      ensures val.Some? && val.value in Erase(old(Quads()), e.quad) ==>
        entries == Unset(old(entries), e.key) && nextKey == old(nextKey)
      ensures val.Some? && val.value !in Erase(old(Quads()), e.quad) ==>
        entries == Unset(old(entries), e.key) + [Entry(old(nextKey), val.value)] && nextKey == old(nextKey) + 1
    {
      UnsetEntry(e);
      if val.Some? {
        // add() of a single quad: one round of its loop
        AppendOne(Quads(), val.value);
        AddOne(val.value);
      }
    }

    /** unset($this->quads[$key]) for a stored entry: its quad goes, the other entries stay. */
    method UnsetEntry(e: Entry)
      requires Valid() && e in entries
      modifies this
      ensures Valid() && nextKey == old(nextKey)
      ensures entries == Unset(old(entries), e.key)
      ensures Quads() == Erase(old(Quads()), e.quad)
      ensures forall f :: f in old(entries) && f.key != e.key ==> f in entries
    {
      var p := Position(entries, e);
      UnsetErases(entries, p);
      RemoveKeysKeepsOrder(entries, {e.key});
      forall f | f in entries && f.key != e.key ensures f in Unset(entries, e.key) {
        var k := Position(entries, f);
      }
      entries := Unset(entries, e.key);
    }

    /**
     * forEach(): for each matching quad, in order, calls fn on it, removes
     * it and adds fn's result (null adds nothing), then renumbers the keys.
     * The matches are fixed before the first call, so an added quad is
     * never visited. When nothing matches, nothing changes.
     */
    method ForEach(fn: Quad -> Option<Quad>, filter: Option<Matcher>)
      requires Valid()
      requires filter.Some? ==> !filter.value.Offset?
      modifies this
      ensures Valid()
      ensures Find(old(entries), filter).Failure? ==> entries == old(entries) && nextKey == old(nextKey)
      ensures Find(old(entries), filter).Success? ==>
        entries == Numbered(Rewrite(old(Quads()), QuadsOf(Matched(old(entries), filter)), fn)) && nextKey == |entries|
    {
      var found := FindMatchingQuads(filter);
      if found.Success? {
        SelectKeepsOrder(entries, filter, true, true);
        RewriteEach(found.value, fn);
        DistinctQuadsOf(entries);
        NumberedWellKeyed(Quads());
        entries := Numbered(Quads());
        nextKey := |entries|;
      }
    }

    /** forEach()'s loop over the snapshot of matching entries. */
    method RewriteEach(idx: seq<Entry>, fn: Quad -> Option<Quad>)
      requires Valid() && Ascending(idx)
      requires forall e :: e in idx ==> e in entries
      modifies this
      ensures Valid()
      ensures Quads() == Rewrite(old(Quads()), QuadsOf(idx), fn)
    {
      var i := 0;
      while i < |idx|
        invariant 0 <= i <= |idx| && Valid()
        invariant Quads() == Rewrite(old(Quads()), QuadsOf(idx[..i]), fn)
        invariant forall j :: i <= j < |idx| ==> idx[j] in entries
      {
        RewriteOne(old(Quads()), idx, i, fn);
        i := i + 1;
      }
      assert idx[..i] == idx;
    }

    /** One round of forEach()'s loop: the i-th snapshotted entry is replaced by fn's result. */
    method RewriteOne(ghost s: seq<Quad>, idx: seq<Entry>, i: nat, fn: Quad -> Option<Quad>)
      requires Valid() && Ascending(idx) && i < |idx|
      requires Quads() == Rewrite(s, QuadsOf(idx[..i]), fn)
      requires forall j :: i <= j < |idx| ==> idx[j] in entries
      modifies this
      ensures Valid()
      ensures Quads() == Rewrite(s, QuadsOf(idx[..i + 1]), fn)
      ensures forall j :: i < j < |idx| ==> idx[j] in entries
    {
      var e := idx[i];
      RewriteStep(s, idx, i, fn);
      UnsetAndAdd(e, fn(e.quad));
    }

    /** count(): the number of stored quads. */
    function Count(): (n: nat)
      reads this
      ensures n == |Quads()|
    {
      |entries|
    }

    /** exists() / offsetExists(): whether exactly one stored quad matches. */
    method Exists(filter: Option<Matcher>) returns (b: bool)
      requires Valid()
      requires filter.Some? && !filter.value.AnyOf?
      ensures b <==> !(filter.Some? && filter.value.Offset? && filter.value.offset != 0) &&
                     |Select(entries, filter, true, true)| == 1
    {
      var found := FindMatchingQuads(filter);
      UniqueIffOneMatch(entries, filter);
      b := found.Success? && |found.value| == 1;
    }

    /** get() / offsetGet(): the one matching quad; zero or several matches are errors. */
    method Get(filter: Option<Matcher>) returns (r: Result<Quad, Error>)
      requires Valid()
      requires filter.Some? && !filter.value.AnyOf?
      ensures r.Success? <==> Unique(entries, filter).Success?
      ensures r.Success? ==> r.value == Unique(entries, filter).value.quad && r.value in Quads()
      ensures r.Failure? ==> r.error == Unique(entries, filter).error && IsOutOfBounds(r.error)
    {
      var found := FindMatchingQuads(filter);
      if found.Failure? {
        return Failure(found.error);
      }
      if |found.value| > 1 {
        return Failure(Ambiguous);
      }
      var e := found.value[0];
      var p := Position(entries, e);
      return Success(e.quad);
    }

    /**
     * set(): replaces the one matching quad by value (nothing happens when
     * the two are equal); zero or several matches are errors and change
     * nothing.
     */
    method Set(filter: Matcher, value: Quad) returns (r: Result<(), Error>)
      requires Valid()
      requires !filter.AnyOf? && !filter.Offset?
      modifies this
      ensures Valid()
      ensures r.Failure? <==> SetQuads(old(entries), filter, value).Failure?
      ensures r.Failure? ==> r.error == SetQuads(old(entries), filter, value).error &&
                             entries == old(entries) && nextKey == old(nextKey)
      ensures r.Success? ==> Quads() == SetQuads(old(entries), filter, value).value
      ensures r.Success? ==> entries == SetEntries(old(entries), old(nextKey), filter, value)
      ensures r.Success? ==> nextKey == if value in old(Quads()) then old(nextKey) else old(nextKey) + 1
    {
      var found := FindMatchingQuads(Some(filter));
      if found.Failure? {
        return Failure(found.error);
      }
      if |found.value| > 1 {
        return Failure(Ambiguous);
      }
      var e := found.value[0];
      assert Unique(entries, Some(filter)) == Success(e);
      if !QuadsEqual(e.quad, value) {
        assert value in Erase(Quads(), e.quad) <==> value in Quads();
        UnsetAndAdd(e, Some(value));
      }
      r := Success(());
    }

    /** offsetSet(): a missing offset adds the value; any other offset is set(). */
    method OffsetSet(offset: Option<Matcher>, value: Quad) returns (r: Result<(), Error>)
      requires Valid()
      requires offset.Some? ==> !offset.value.AnyOf? && !offset.value.Offset?
      modifies this
      ensures Valid()
      ensures offset.None? ==> r.Success? && Quads() == AppendNew(old(Quads()), [value])
      ensures offset.None? ==> entries == if value in old(Quads()) then old(entries)
                                         else old(entries) + [Entry(old(nextKey), value)]
      ensures offset.None? ==> nextKey == if value in old(Quads()) then old(nextKey) else old(nextKey) + 1
      ensures offset.Some? ==> (r.Failure? <==> SetQuads(old(entries), offset.value, value).Failure?)
      ensures offset.Some? && r.Failure? ==> r.error == SetQuads(old(entries), offset.value, value).error &&
                                             entries == old(entries) && nextKey == old(nextKey)
      ensures offset.Some? && r.Success? ==> Quads() == SetQuads(old(entries), offset.value, value).value
      ensures offset.Some? && r.Success? ==> entries == SetEntries(old(entries), old(nextKey), offset.value, value)
      ensures offset.Some? && r.Success? ==>
        nextKey == if value in old(Quads()) then old(nextKey) else old(nextKey) + 1
    {
      if offset.None? {
        // add() of a single quad: one round of its loop
        AppendOne(Quads(), value);
        AddOne(value);
        r := Success(());
      } else {
        r := Set(offset.value, value);
      }
    }

    /**
     * offsetUnset() as written: nothing happens when nothing matches, several
     * matches are an error, and one match has its KEY passed to
     * array_splice(), which removes by POSITION and renumbers the keys.
     */
    method OffsetUnset(filter: Option<Matcher>) returns (r: Result<(), Error>)
      requires Valid()
      modifies this
      ensures Valid()
      ensures Find(old(entries), filter).Failure? ==> r.Success? && entries == old(entries) && nextKey == old(nextKey)
      ensures Find(old(entries), filter).Success? && |Find(old(entries), filter).value| > 1 ==>
        r == Failure(Ambiguous) && entries == old(entries) && nextKey == old(nextKey)
      ensures Unique(old(entries), filter).Success? ==>
        r.Success? && entries == Splice(old(entries), Unique(old(entries), filter).value.key) && nextKey == |entries|
    {
      var found := FindMatchingQuads(filter);
      if found.Failure? {
        return Success(());
      }
      if |found.value| > 1 {
        return Failure(Ambiguous);
      }
      var e := found.value[0];
      SpliceWellKeyed(entries, e.key);
      entries := Splice(entries, e.key);
      nextKey := |entries|;
      r := Success(());
    }

    /** offsetUnset() as evidently intended: the one matching quad is unset by its key. */
    method OffsetUnsetByKey(filter: Option<Matcher>) returns (r: Result<(), Error>)
      requires Valid()
      modifies this
      ensures Valid() && nextKey == old(nextKey)
      ensures Find(old(entries), filter).Failure? ==> r.Success? && entries == old(entries)
      ensures Find(old(entries), filter).Success? && |Find(old(entries), filter).value| > 1 ==>
        r == Failure(Ambiguous) && entries == old(entries)
      ensures Unique(old(entries), filter).Success? ==>
        r.Success? && Quads() == Erase(old(Quads()), Unique(old(entries), filter).value.quad)
      ensures Unique(old(entries), filter).Success? ==> entries == Unset(old(entries), Unique(old(entries), filter).value.key)
    {
      var found := FindMatchingQuads(filter);
      if found.Failure? {
        return Success(());
      }
      if |found.value| > 1 {
        return Failure(Ambiguous);
      }
      UnsetAndAdd(found.value[0], Option.None);
      r := Success(());
    }

    /** map(): a new dataset with fn's result for each matching quad, duplicates dropped. */
    method Map(fn: Quad -> Quad, filter: Option<Matcher>) returns (d: Dataset)
      requires Valid()
      requires filter.Some? ==> !filter.value.Offset?
      ensures fresh(d) && d.Valid()
      ensures d.Quads() == AppendNew([], Mapped(fn, QuadsOf(Matched(entries, filter))))
      ensures d.entries == Numbered(d.Quads()) && d.nextKey == |d.entries|
    {
      d := new Dataset();
      var found := FindMatchingQuads(filter);
      var idx := if found.Success? then found.value else [];
      assert idx == Matched(entries, filter);
      var i := 0;
      while i < |idx|
        invariant 0 <= i <= |idx| && d.Valid()
        invariant d.Quads() == AppendNew([], Mapped(fn, QuadsOf(idx[..i])))
        invariant KeysFrom(d.entries, 0, 0) && d.nextKey == |d.entries|
      {
        MappedSnoc(fn, idx, i);
        AppendNewSnoc([], Mapped(fn, QuadsOf(idx[..i])), fn(idx[i].quad));
        AppendOne(d.Quads(), fn(idx[i].quad));
        d.Add([fn(idx[i].quad)]);
        i := i + 1;
      }
      assert idx[..i] == idx;
      KeysFromZeroNumbered(d.entries);
    }

    /** reduce(): fn folded over the matching quads from the initial value. */
    method Reduce<A>(fn: (A, Quad) -> A, initial: A, filter: Option<Matcher>) returns (acc: A)
      requires filter.Some? ==> !filter.value.Offset?
      ensures acc == FoldLeft(fn, initial, QuadsOf(Matched(entries, filter)))
    {
      acc := initial;
      var found := FindMatchingQuads(filter);
      var idx := if found.Success? then found.value else [];
      var i := 0;
      while i < |idx|
        invariant 0 <= i <= |idx|
        invariant acc == FoldLeft(fn, initial, QuadsOf(idx[..i]))
      {
        FoldLeftStep(fn, initial, idx, i);
        acc := fn(acc, idx[i].quad);
        i := i + 1;
      }
      assert idx[..i] == idx;
    }

    /** any(): some stored quad matches (a non-zero offset matches nothing). */
    method Any(filter: Option<Matcher>) returns (b: bool)
      requires filter.Some? && !filter.value.Offset?
      ensures b <==> exists i :: 0 <= i < |entries| && Hit(filter, true, i, entries[i].quad)
    {
      var found := FindMatchingQuads(filter);
      b := found.Success?;
    }

    /** none(): no stored quad matches. */
    method None(filter: Option<Matcher>) returns (b: bool)
      requires filter.Some? && !filter.value.Offset?
      ensures b <==> !exists i :: 0 <= i < |entries| && Hit(filter, true, i, entries[i].quad)
    {
      var found := FindMatchingQuads(filter);
      b := found.Failure?;
    }

    /**
     * every(): at least one quad matches and the number of matches is the
     * number of stored quads, so an empty dataset gives false.
     */
    method Every(filter: Option<Matcher>) returns (b: bool)
      requires filter.Some? && !filter.value.Offset?
      ensures b <==> |entries| > 0 &&
                     forall i :: 0 <= i < |entries| ==> Hit(filter, true, i, entries[i].quad)
    {
      var found := FindMatchingQuads(filter);
      SelectAll(entries, filter, true, true);
      if found.Failure? {
        return false;
      }
      var n := 0;
      var i := 0;
      while i < |found.value|
        invariant 0 <= i <= |found.value| && n == i
      {
        n := n + 1;
        i := i + 1;
      }
      b := n == Count();
    }

    /** Whether a term equal to t is among ts: listQuadElement()'s inner loop. */
    static method Spotted(ts: seq<Term>, t: Term) returns (found: bool)
      ensures found <==> t in ts
    {
      found := false;
      var j := 0;
      while j < |ts| && !found
        invariant 0 <= j <= |ts|
        invariant found <==> exists k :: 0 <= k < j && ts[k] == t
      {
        found := TermEquals(ts[j], t);
        j := j + 1;
      }
    }

    /**
     * listQuadElement(): the chosen position of each matching quad, in
     * order, each distinct term once.
     */
    method ListQuadElement(filter: Option<Matcher>, part: Part) returns (ts: seq<Term>)
      requires filter.Some? ==> !filter.value.Offset?
      ensures ts == AppendNew([], Parts(QuadsOf(Matched(entries, filter)), part))
      ensures Distinct(ts)
      ensures forall t :: t in ts <==> exists q :: q in QuadsOf(Matched(entries, filter)) && PartOf(q, part) == t
    {
      ts := [];
      var found := FindMatchingQuads(filter);
      var idx := if found.Success? then found.value else [];
      assert idx == Matched(entries, filter);
      var i := 0;
      while i < |idx|
        invariant 0 <= i <= |idx|
        invariant ts == AppendNew([], Parts(QuadsOf(idx[..i]), part))
      {
        var t := PartOf(idx[i].quad, part);
        PartsSnoc(idx, i, part);
        AppendNewSnoc([], Parts(QuadsOf(idx[..i]), part), t);
        var flag := Spotted(ts, t);
        if !flag {
          ts := ts + [t];
        }
        i := i + 1;
      }
      assert idx[..i] == idx;
      PartsMembership(QuadsOf(idx), part);
    }

    /**
     * equals(): every non-blank quad of other is stored here, and both hold
     * the same number of non-blank quads.
     */
    method Equals(other: Dataset) returns (b: bool)
      requires Valid() && other.Valid()
      ensures b <==> (forall q :: q in NonBlankQuads(other.Quads()) ==> q in Quads()) &&
                     |NonBlankQuads(other.Quads())| == |NonBlankQuads(Quads())|
    {
      var contained, n := ContainsNonBlank(other.Quads());
      if !contained {
        return false;
      }
      var m := CountNonBlank(Quads());
      b := n as int - m == 0;
    }

    /** equals()'s first loop: whether every non-blank quad of oq is stored here, and how many there are. */
    method ContainsNonBlank(oq: seq<Quad>) returns (contained: bool, n: nat)
      requires Valid()
      ensures contained <==> forall q :: q in NonBlankQuads(oq) ==> q in Quads()
      ensures contained ==> n == |NonBlankQuads(oq)|
    {
      n := 0;
      var i := 0;
      while i < |oq|
        invariant 0 <= i <= |oq|
        invariant n == |NonBlankQuads(oq[..i])|
        invariant forall q :: q in NonBlankQuads(oq[..i]) ==> q in Quads()
      {
        var q := oq[i];
        NonBlankStep(oq, i);
        if NonBlank(q) {
          var ex := Exists(Some(SameQuad(q)));
          UniqueSameQuad(entries, q);
          UniqueIffOneMatch(entries, Some(SameQuad(q)));
          if !ex {
            assert q in NonBlankQuads(oq);
            return false, n;
          }
          n := n + 1;
        }
        i := i + 1;
      }
      assert oq[..i] == oq;
      contained := true;
    }

    /** equals()'s second loop: the number of non-blank quads of qs. */
    static method CountNonBlank(qs: seq<Quad>) returns (n: nat)
      ensures n == |NonBlankQuads(qs)|
    {
      n := 0;
      var j := 0;
      ghost var seen: seq<Quad> := [];
      while j < |qs|
        invariant 0 <= j <= |qs|
        invariant seen == NonBlankQuads(qs[..j]) && n == |seen|
      {
        NonBlankStep(qs, j);
        if NonBlank(qs[j]) {
          n := n + 1;
          seen := seen + [qs[j]];
        }
        j := j + 1;
      }
      WholePrefix(qs);
    }

    /** __toString(): each stored quad's string followed by a newline. */
    method ToString() returns (s: string)
      ensures s == Lines(Quads())
    {
      s := "";
      var i := 0;
      var qs := Quads();
      while i < |qs|
        invariant 0 <= i <= |qs|
        invariant s == Lines(qs[..i])
      {
        assert qs[..i + 1][..i] == qs[..i];
        s := s + QuadString(qs[i]) + "\n";
        i := i + 1;
      }
      assert qs[..i] == qs;
    }
  }

  /** For a filter that ignores positions, a quad survives delete() iff it was stored and does not match. */
  lemma RemainingQuads(es: seq<Entry>, filter: Option<Matcher>, x: Quad)
    requires PositionFree(filter)
    ensures x in QuadsOf(Remaining(es, filter)) <==> x in QuadsOf(es) && !Hit(filter, true, 0, x)
  {
    SelectQuads(es, filter, true, false, x);
    if Find(es, filter).Failure? && x in QuadsOf(es) {
      var i :| 0 <= i < |es| && es[i].quad == x;
      assert !Hit(filter, true, i, es[i].quad);
    }
  }

  /** One round of the removal loop: the entry's quad is new to the result, and its key joins the removed ones. */
  lemma ExtractStep(es: seq<Entry>, idx: seq<Entry>, i: nat)
    requires DistinctQuads(idx) && i < |idx|
    ensures idx[i].quad !in QuadsOf(idx[..i])
    ensures QuadsOf(idx[..i + 1]) == QuadsOf(idx[..i]) + [idx[i].quad]
    ensures RemoveKeys(es, KeySet(idx[..i + 1])) == Unset(RemoveKeys(es, KeySet(idx[..i])), idx[i].key)
  {
    var e := idx[i];
    assert forall k :: 0 <= k < i ==> idx[..i][k] == idx[k];
    assert idx[..i + 1] == idx[..i] + [e];
    QuadsOfSnoc(idx[..i], e);
    KeySetSnoc(idx[..i], e);
    RemoveKeysTwice(es, KeySet(idx[..i]), {e.key});
  }

  /**
   * xor() deletes, from the union, the stored quads that other also holds:
   * what remains is the quads in exactly one of the two.
   */
  lemma XorQuads(es: seq<Entry>, other: seq<Quad>, common: seq<Quad>, union: seq<Entry>, x: Quad)
    requires common == QuadsOf(Matched(es, Some(AnyOf(other))))
    requires forall y :: y in QuadsOf(union) <==> y in QuadsOf(es) || y in other
    ensures x in QuadsOf(Remaining(union, Some(AnyOf(common)))) <==> (x in QuadsOf(es) <==> x !in other)
  {
    MatchedQuads(es, Some(AnyOf(other)), x);
    InCollectionIsMembership(other, x);
    InCollectionIsMembership(common, x);
    RemainingQuads(union, Some(AnyOf(common)), x);
  }

  /** A sequence is its own longest prefix. */
  lemma WholePrefix(qs: seq<Quad>)
    ensures qs[..|qs|] == qs
  {
  }

  /** One round of a loop over qs that counts or collects the non-blank quads. */
  lemma NonBlankStep(qs: seq<Quad>, i: nat)
    requires i < |qs|
    ensures NonBlankQuads(qs[..i + 1]) == if NonBlank(qs[i]) then NonBlankQuads(qs[..i]) + [qs[i]] else NonBlankQuads(qs[..i])
    ensures qs[i] in qs
  {
    assert qs[..i + 1][..i] == qs[..i];
  }

  /** One round of the copy loop: the next quad is new to the copy. */
  lemma CollectStep(idx: seq<Entry>, i: nat)
    requires DistinctQuads(idx) && i < |idx|
    ensures idx[i].quad !in QuadsOf(idx[..i])
    ensures QuadsOf(idx[..i + 1]) == QuadsOf(idx[..i]) + [idx[i].quad]
  {
    assert idx[..i + 1] == idx[..i] + [idx[i]];
    QuadsOfSnoc(idx[..i], idx[i]);
    assert forall k :: 0 <= k < i ==> QuadsOf(idx[..i])[k] == idx[k].quad;
  }

  /** One round of forEach()'s loop, and the later entries' keys differ from this one's. */
  lemma RewriteStep(s: seq<Quad>, idx: seq<Entry>, i: nat, fn: Quad -> Option<Quad>)
    requires Ascending(idx) && i < |idx|
    ensures Rewrite(s, QuadsOf(idx[..i + 1]), fn) ==
      match fn(idx[i].quad)
      case None => Erase(Rewrite(s, QuadsOf(idx[..i]), fn), idx[i].quad)
      case Some(v) => AppendNew(Erase(Rewrite(s, QuadsOf(idx[..i]), fn), idx[i].quad), [v])
    ensures forall j :: i < j < |idx| ==> idx[j].key != idx[i].key
  {
    assert idx[..i + 1] == idx[..i] + [idx[i]];
    QuadsOfSnoc(idx[..i], idx[i]);
    RewriteSnoc(s, QuadsOf(idx[..i]), idx[i].quad, fn);
  }

  lemma MappedSnoc(fn: Quad -> Quad, idx: seq<Entry>, i: nat)
    requires i < |idx|
    ensures Mapped(fn, QuadsOf(idx[..i + 1])) == Mapped(fn, QuadsOf(idx[..i])) + [fn(idx[i].quad)]
  {
    assert idx[..i + 1] == idx[..i] + [idx[i]];
    QuadsOfSnoc(idx[..i], idx[i]);
  }

  lemma PartsSnoc(idx: seq<Entry>, i: nat, part: Part)
    requires i < |idx|
    ensures Parts(QuadsOf(idx[..i + 1]), part) == Parts(QuadsOf(idx[..i]), part) + [PartOf(idx[i].quad, part)]
  {
    assert idx[..i + 1] == idx[..i] + [idx[i]];
    QuadsOfSnoc(idx[..i], idx[i]);
  }

  /** The listed terms are exactly the chosen positions of the listed quads. */
  lemma PartsMembership(qs: seq<Quad>, part: Part)
    ensures forall t :: t in AppendNew([], Parts(qs, part)) <==> exists q :: q in qs && PartOf(q, part) == t
  {
    var ps := Parts(qs, part);
    forall t ensures t in ps <==> exists q :: q in qs && PartOf(q, part) == t {
      if t in ps {
        var k :| 0 <= k < |ps| && ps[k] == t;
        assert qs[k] in qs;
      }
      if exists q :: q in qs && PartOf(q, part) == t {
        var q :| q in qs && PartOf(q, part) == t;
        var k :| 0 <= k < |qs| && qs[k] == q;
        assert ps[k] == t;
      }
    }
  }

  /**
   * delete() splits the stored entries: each one is either returned or
   * kept, never both, and nothing else is kept.
   */
  lemma DeleteSplits(es: seq<Entry>, filter: Option<Matcher>)
    requires Ascending(es)
    ensures forall i :: 0 <= i < |es| ==> (es[i] in Matched(es, filter) <==> es[i] !in Remaining(es, filter))
    ensures forall e :: e in Remaining(es, filter) ==> e in es
  {
    if Find(es, filter).Success? {
      forall i | 0 <= i < |es| ensures es[i] in Matched(es, filter) <==> es[i] !in Remaining(es, filter) {
        SelectMember(es, filter, true, true, i);
        SelectMember(es, filter, true, false, i);
      }
    }
  }

  /**
   * For a given filter that ignores positions, copy() and copyExcept() split
   * the stored quads into those that match and those that do not.
   */
  lemma CopySplits(es: seq<Entry>, f: Matcher, x: Quad)
    requires !f.Offset?
    ensures x in QuadsOf(Matched(es, Some(f))) <==> x in QuadsOf(es) && Hit(Some(f), true, 0, x)
    ensures x in QuadsOf(NotMatched(es, Some(f))) <==> x in QuadsOf(es) && !Hit(Some(f), true, 0, x)
  {
    MatchedQuads(es, Some(f), x);
    SelectQuads(es, Some(f), false, false, x);
  }

  /** A missing filter selects every entry for copy() and none for copyExcept()'s test, so both copy everything. */
  lemma {:induction false} NullFilterSelectsAll(es: seq<Entry>)
    ensures Select(es, Option.None, true, true) == es
    ensures Select(es, Option.None, false, false) == es
    ensures Matched(es, Option.None) == es
  {
    if es != [] {
      NullFilterSelectsAll(es[..|es| - 1]);
      assert es[..|es| - 1] + [es[|es| - 1]] == es;
    }
  }

  /**
   * set() with a replacement that differs from the matched quad drops the
   * count by one when the replacement was already stored, and keeps it
   * otherwise.
   */
  lemma SetCount(es: seq<Entry>, filter: Matcher, value: Quad)
    requires DistinctQuads(es) && SetQuads(es, filter, value).Success?
    ensures var e := Unique(es, Some(filter)).value;
            |SetQuads(es, filter, value).value| == if e.quad != value && value in QuadsOf(es) then |es| - 1 else |es|
  {
    var e := Unique(es, Some(filter)).value;
    DistinctQuadsOf(es);
    var p := Position(es, e);
    assert QuadsOf(es)[p] == e.quad;
    if e.quad != value {
      AppendOne(Erase(QuadsOf(es), e.quad), value);
    }
  }

  lemma {:induction false} DistinctCard<T(!new)>(s: seq<T>)
    requires Distinct(s)
    ensures |set x | x in s| == |s|
  {
    if s != [] {
      var init := s[..|s| - 1];
      var y := s[|s| - 1];
      DistinctCard(init);
      assert (set x | x in s) == (set x | x in init) + {y} by {
        assert s == init + [y];
      }
      assert y !in (set x | x in init);
    }
  }

  /**
   * For datasets without duplicates, equals() holds exactly when both hold
   * the same quads once quads with a blank subject or object are ignored.
   */
  lemma EqualsIffSameNonBlankQuads(mine: seq<Quad>, theirs: seq<Quad>)
    requires Distinct(mine) && Distinct(theirs)
    ensures ((forall q :: q in NonBlankQuads(theirs) ==> q in mine) && |NonBlankQuads(theirs)| == |NonBlankQuads(mine)|) <==>
            (forall q :: q in mine && NonBlank(q) <==> q in theirs && NonBlank(q))
  {
    var a := NonBlankQuads(mine);
    var b := NonBlankQuads(theirs);
    if (forall q :: q in b ==> q in mine) && |b| == |a| {
      ContainedSameLength(a, b);
    }
    if forall q :: q in mine && NonBlank(q) <==> q in theirs && NonBlank(q) {
      SameElementsSameLength(a, b);
    }
  }

  /** Of two distinct sequences of one length, one inside the other, each is inside the other. */
  lemma ContainedSameLength(a: seq<Quad>, b: seq<Quad>)
    requires Distinct(a) && Distinct(b) && |a| == |b|
    requires forall q :: q in b ==> q in a
    ensures forall q :: q in a <==> q in b
  {
    var sa := set x | x in a;
    var sb := set x | x in b;
    DistinctCard(a);
    DistinctCard(b);
    assert sb <= sa;
    if sb != sa {
      var z :| z in sa && z !in sb;
      SubsetCard(sb, sa - {z});
    }
    assert sa == sb;
    forall q
      ensures q in a <==> q in b
    {
      assert q in a <==> q in sa;
      assert q in b <==> q in sb;
    }
  }

  /** A subset is no larger than the set around it. */
  lemma {:induction false} SubsetCard(small: set<Quad>, big: set<Quad>)
    requires small <= big
    ensures |small| <= |big|
    decreases |big|
  {
    if small != {} {
      var x :| x in small;
      SubsetCard(small - {x}, big - {x});
    }
  }

  /** Distinct sequences with the same elements have the same length. */
  lemma SameElementsSameLength(a: seq<Quad>, b: seq<Quad>)
    requires Distinct(a) && Distinct(b)
    requires forall q :: q in a <==> q in b
    ensures |a| == |b|
  {
    DistinctCard(a);
    DistinctCard(b);
    assert (set x | x in a) == (set x | x in b);
  }

  /** The string of a dataset is the strings of its parts, one after the other. */
  lemma {:induction false} LinesAppend(a: seq<Quad>, b: seq<Quad>)
    ensures Lines(a + b) == Lines(a) + Lines(b)
  {
    if b != [] {
      var init, z := b[..|b| - 1], b[|b| - 1];
      AppendInit(a, b);
      LinesAppend(a, init);
      SplitOffFirst(Lines(a), Lines(init), QuadString(z), "\n");
    } else {
      assert a + b == a;
    }
  }

  /** Dropping the last element of a + b, for a non-empty b, drops it from b. */
  lemma AppendInit(a: seq<Quad>, b: seq<Quad>)
    requires b != []
    ensures (a + b)[..|a + b| - 1] == a + b[..|b| - 1]
    ensures (a + b)[|a + b| - 1] == b[|b| - 1]
  {
  }

  /** Removing the element at a position of a distinct sequence erases that element. */
  lemma {:induction false} EraseAt(s: seq<Quad>, p: nat)
    requires Distinct(s) && p < |s|
    ensures Erase(s, s[p]) == WithoutPosition(s, p)
  {
    var init := s[..|s| - 1];
    var y := s[|s| - 1];
    assert s == init + [y];
    DistinctLast(init, y);
    if p == |s| - 1 {
      EraseSnoc(init, y, y);
      ErasedAbsent(init, y);
    } else {
      var x := s[p];
      assert init[p] == x && x != y;
      EraseSnoc(init, y, x);
      EraseAt(init, p);
      WithoutPositionSnoc(init, y, p);
    }
  }

  /**
   * While the keys are exactly the positions, as after array_values() or
   * array_splice(), passing the key to array_splice() does remove the
   * matched quad.
   */
  lemma SpliceByKeyWithoutGaps(es: seq<Entry>, p: nat)
    requires DistinctQuads(es) && p < |es|
    requires forall i :: 0 <= i < |es| ==> es[i].key == i
    ensures QuadsOf(Splice(es, es[p].key)) == Erase(QuadsOf(es), es[p].quad)
  {
    DistinctQuadsOf(es);
    EraseAt(QuadsOf(es), p);
  }

  /** delete() of the first of three quads leaves the other two under keys 1 and 2. */
  lemma DeleteFirstOfThree(a: Quad, b: Quad, c: Quad)
    requires a != b && a != c
    ensures Remaining(Numbered([a, b, c]), Some(SameQuad(a))) == [Entry(1, b), Entry(2, c)]
  {
    var f := Some(SameQuad(a));
    var all := Numbered([a, b, c]);
    assert all == [Entry(0, a), Entry(1, b), Entry(2, c)];
    assert Hit(f, true, 0, a) && !Hit(f, true, 1, b) && !Hit(f, true, 2, c);
    SelectThree(Entry(0, a), Entry(1, b), Entry(2, c), f, true, true);
    SelectThree(Entry(0, a), Entry(1, b), Entry(2, c), f, true, false);
    assert Select(all, f, true, true) == [Entry(0, a)] + [] + [];
    assert Select(all, f, true, false) == [] + [Entry(1, b)] + [Entry(2, c)];
  }

  /** The selection from three entries, test by test. */
  lemma SelectThree(e0: Entry, e1: Entry, e2: Entry, filter: Option<Matcher>, nullMeans: bool, want: bool)
    ensures Select([e0, e1, e2], filter, nullMeans, want) ==
      (if Hit(filter, nullMeans, 0, e0.quad) == want then [e0] else []) +
      (if Hit(filter, nullMeans, 1, e1.quad) == want then [e1] else []) +
      (if Hit(filter, nullMeans, 2, e2.quad) == want then [e2] else [])
  {
    assert [e0, e1, e2] == [e0, e1] + [e2];
    assert [e0, e1] == [e0] + [e1];
    assert [e0] == [] + [e0];
    SelectSnoc([], e0, filter, nullMeans, want);
    SelectSnoc([e0], e1, filter, nullMeans, want);
    SelectSnoc([e0, e1], e2, filter, nullMeans, want);
  }

  /** The quad under key 1 is then the one offsetGet() and offsetUnset() find for b. */
  lemma FindSecondOfTwo(b: Quad, c: Quad)
    requires b != c
    ensures Unique([Entry(1, b), Entry(2, c)], Some(SameQuad(b))) == Success(Entry(1, b))
  {
    var f := Some(SameQuad(b));
    assert [Entry(1, b), Entry(2, c)] == [] + [Entry(1, b)] + [Entry(2, c)];
    assert Hit(f, true, 0, b) && !Hit(f, true, 1, c);
    SelectSnoc([], Entry(1, b), f, true, true);
    SelectSnoc([Entry(1, b)], Entry(2, c), f, true, true);
    assert Select([Entry(1, b), Entry(2, c)], f, true, true) == [Entry(1, b)];
    assert Find([Entry(1, b), Entry(2, c)], f) == Success([Entry(1, b)]);
  }

  /** array_splice() at position 1 of two entries keeps the first quad. */
  lemma SpliceSecondOfTwo(b: Quad, c: Quad)
    ensures QuadsOf(Splice([Entry(1, b), Entry(2, c)], 1)) == [b]
  {
    assert QuadsOf([Entry(1, b), Entry(2, c)]) == [b, c];
  }

  /** Removing b itself from those two entries keeps the second quad. */
  lemma EraseFirstOfTwo(b: Quad, c: Quad)
    requires b != c
    ensures Erase(QuadsOf([Entry(1, b), Entry(2, c)]), b) == [c]
  {
    assert QuadsOf([Entry(1, b), Entry(2, c)]) == [b, c] == [b] + [c];
    assert Erase([b], b) == [] by { assert [b][..0] == []; }
  }

  /**
   * After delete() has removed the first of three quads, the keys are 1 and
   * 2. offsetUnset() of the quad under key 1 then passes 1 to
   * array_splice(), which removes the quad at position 1: the other one.
   */
  lemma OffsetUnsetAfterDeleteRemovesWrongQuad(a: Quad, b: Quad, c: Quad)
    requires a != b && b != c && a != c
    ensures var es := Remaining(Numbered([a, b, c]), Some(SameQuad(a)));
            es == [Entry(1, b), Entry(2, c)] &&
            Unique(es, Some(SameQuad(b))) == Success(Entry(1, b)) &&
            QuadsOf(Splice(es, 1)) == [b] &&
            Erase(QuadsOf(es), b) == [c]
  {
    DeleteFirstOfThree(a, b, c);
    FindSecondOfTwo(b, c);
    SpliceSecondOfTwo(b, c);
    EraseFirstOfTwo(b, c);
  }
}
