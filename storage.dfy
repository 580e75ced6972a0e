/**
 * The dataset's storage: a PHP list of quads, that is entries with integer
 * keys in insertion order. unset() removes an entry and leaves a gap in the
 * keys; array_values() and array_splice() renumber the entries from 0.
 */
module Storage {
  import opened Wrappers
  import opened Terms

  /** One element of the PHP array: its key and the quad stored under it. */
  datatype Entry = Entry(key: nat, quad: Quad)

  predicate Distinct<T(==)>(s: seq<T>)
  {
    forall i, j :: 0 <= i < j < |s| ==> s[i] != s[j]
  }

  /** Keys grow along the iteration order, as PHP appends under the next free key. */
  predicate Ascending(es: seq<Entry>)
  {
    forall i, j :: 0 <= i < j < |es| ==> es[i].key < es[j].key
  }

  predicate DistinctQuads(es: seq<Entry>)
  {
    forall i, j :: 0 <= i < j < |es| ==> es[i].quad != es[j].quad
  }

  /** The stored quads in iteration order. */
  function QuadsOf(es: seq<Entry>): (r: seq<Quad>)
    ensures |r| == |es| && forall i :: 0 <= i < |es| ==> r[i] == es[i].quad
  {
    if es == [] then [] else QuadsOf(es[..|es| - 1]) + [es[|es| - 1].quad]
  }

  lemma DistinctQuadsOf(es: seq<Entry>)
    ensures DistinctQuads(es) <==> Distinct(QuadsOf(es))
  {
  }

  /** Appending an entry with a larger key keeps the keys ascending. */
  lemma AscendingSnoc(es: seq<Entry>, e: Entry)
    requires Ascending(es) && forall f :: f in es ==> f.key < e.key
    ensures Ascending(es + [e])
  {
    var r := es + [e];
    forall i, j | 0 <= i < j < |r| ensures r[i].key < r[j].key {
      assert r[i] == es[i];
      if j < |es| {
        assert r[j] == es[j];
      }
    }
  }

  /** Appending an entry with a new quad keeps the quads distinct. */
  lemma DistinctQuadsSnoc(es: seq<Entry>, e: Entry)
    requires DistinctQuads(es) && forall f :: f in es ==> f.quad != e.quad
    ensures DistinctQuads(es + [e])
  {
    var r := es + [e];
    forall i, j | 0 <= i < j < |r| ensures r[i].quad != r[j].quad {
      assert r[i] == es[i];
      if j < |es| {
        assert r[j] == es[j];
      }
    }
  }

  /** The last entry's key is above the others', and its quad differs from theirs when the quads are distinct. */
  lemma LastAbove(init: seq<Entry>, e: Entry)
    requires Ascending(init + [e])
    ensures Ascending(init)
    ensures forall f :: f in init ==> f.key < e.key
    ensures DistinctQuads(init + [e]) ==> DistinctQuads(init) && forall f :: f in init ==> f.quad != e.quad
  {
    var r := init + [e];
    assert r[|init|] == e;
    assert forall i :: 0 <= i < |init| ==> r[i] == init[i];
  }

  /** The same for the entries of any t drawn from init. */
  lemma LastAboveSub(init: seq<Entry>, t: seq<Entry>, e: Entry)
    requires Ascending(init + [e]) && forall f :: f in t ==> f in init
    ensures forall f :: f in t ==> f.key < e.key
    ensures DistinctQuads(init + [e]) ==> forall f :: f in t ==> f.quad != e.quad
  {
    LastAbove(init, e);
  }

  /** Appending an entry with a larger key and a new quad keeps the keys ascending and the quads distinct. */
  lemma AppendEntryKeepsOrder(es: seq<Entry>, e: Entry)
    requires Ascending(es) && DistinctQuads(es)
    requires forall i :: 0 <= i < |es| ==> es[i].key < e.key && es[i].quad != e.quad
    ensures Ascending(es + [e]) && DistinctQuads(es + [e])
  {
    AscendingSnoc(es, e);
    DistinctQuadsSnoc(es, e);
  }

  /** The storage invariant: keys ascending and below the next free key, quads stored once. */
  predicate WellKeyed(es: seq<Entry>, next: nat)
  {
    Ascending(es) && DistinctQuads(es) && forall i :: 0 <= i < |es| ==> es[i].key < next
  }

  /** Storing a new quad under the next free key keeps the invariant. */
  lemma AppendWellKeyed(es: seq<Entry>, next: nat, q: Quad)
    requires WellKeyed(es, next) && q !in QuadsOf(es)
    ensures WellKeyed(es + [Entry(next, q)], next + 1)
    ensures QuadsOf(es + [Entry(next, q)]) == QuadsOf(es) + [q]
  {
    QuadsOfSnoc(es, Entry(next, q));
    forall i | 0 <= i < |es| ensures es[i].key < next && es[i].quad != q {
      assert es[i].quad == QuadsOf(es)[i];
    }
    AppendEntryKeepsOrder(es, Entry(next, q));
  }

  /** The entries from position base on hold the consecutive keys first, first + 1, ... */
  predicate KeysFrom(es: seq<Entry>, base: nat, first: nat)
  {
    forall i :: base <= i < |es| ==> es[i].key == first + (i - base)
  }

  lemma KeysFromSnoc(es: seq<Entry>, base: nat, first: nat, e: Entry)
    requires KeysFrom(es, base, first) && base <= |es| && e.key == first + (|es| - base)
    ensures KeysFrom(es + [e], base, first)
  {
  }

  /** Entries keyed 0, 1, 2, ... followed by entries keyed on from their count are keyed 0, 1, 2, ... throughout. */
  lemma KeysFromExtend(es: seq<Entry>, more: seq<Entry>)
    requires KeysFrom(es, 0, 0) && es <= more && KeysFrom(more, |es|, |es|)
    ensures KeysFrom(more, 0, 0)
  {
    forall i | 0 <= i < |es| ensures more[i].key == i {
      assert more[i] == es[i];
    }
  }

  /** Entries keyed 0, 1, 2, ... are the renumbered form of their quads. */
  lemma KeysFromZeroNumbered(es: seq<Entry>)
    requires KeysFrom(es, 0, 0)
    ensures es == Numbered(QuadsOf(es))
  {
    var r := Numbered(QuadsOf(es));
    forall i | 0 <= i < |es| ensures es[i] == r[i] {
      assert r[i].quad == QuadsOf(es)[i] == es[i].quad;
    }
  }

  /** The set of keys in use. */
  function KeySet(es: seq<Entry>): set<nat>
  {
    set i | 0 <= i < |es| :: es[i].key
  }

  /**
   * Appending the elements of xs one by one, skipping each one that is
   * already present: add()'s inner search loop, and the de-duplication of
   * listQuadElement().
   */
  function AppendNew<T(==, !new)>(s: seq<T>, xs: seq<T>): (r: seq<T>)
    ensures s <= r
    ensures forall x :: x in r <==> x in s || x in xs
    ensures Distinct(s) ==> Distinct(r)
  {
    if xs == [] then s
    else
      var t := AppendNew(s, xs[..|xs| - 1]);
      var x := xs[|xs| - 1];
      assert forall y :: y in xs <==> y in xs[..|xs| - 1] || y == x by {
        assert xs == xs[..|xs| - 1] + [x];
      }
      if x in t then t else t + [x]
  }

  lemma AppendNewSnoc<T(!new)>(s: seq<T>, xs: seq<T>, x: T)
    ensures AppendNew(s, xs + [x]) == if x in AppendNew(s, xs) then AppendNew(s, xs) else AppendNew(s, xs) + [x]
  {
    assert (xs + [x])[..|xs|] == xs;
  }

  /** One round of a loop over xs that appends its new elements. */
  lemma AppendNewStep<T(!new)>(s: seq<T>, xs: seq<T>, i: nat)
    requires i < |xs|
    ensures AppendNew(s, xs[..i + 1]) == if xs[i] in AppendNew(s, xs[..i]) then AppendNew(s, xs[..i]) else AppendNew(s, xs[..i]) + [xs[i]]
  {
    assert xs[..i + 1] == xs[..i] + [xs[i]];
    AppendNewSnoc(s, xs[..i], xs[i]);
  }

  lemma AppendOne<T(!new)>(s: seq<T>, x: T)
    ensures AppendNew(s, [x]) == if x in s then s else s + [x]
  {
    assert [x][..0] == [];
  }

  /** Adding only elements that are already present changes nothing. */
  lemma {:induction false} AppendNewPresent<T(!new)>(s: seq<T>, xs: seq<T>)
    requires forall x :: x in xs ==> x in s
    ensures AppendNew(s, xs) == s
  {
    if xs != [] {
      assert forall x :: x in xs[..|xs| - 1] ==> x in xs;
      AppendNewPresent(s, xs[..|xs| - 1]);
    }
  }

  /** Adding the same batch twice is the same as adding it once. */
  lemma AppendNewIdempotent<T(!new)>(s: seq<T>, xs: seq<T>)
    ensures AppendNew(AppendNew(s, xs), xs) == AppendNew(s, xs)
  {
    AppendNewPresent(AppendNew(s, xs), xs);
  }

  /** Distinct elements none of which is present are appended as they come, in input order. */
  lemma {:induction false} AppendNewFresh<T(!new)>(s: seq<T>, xs: seq<T>)
    requires Distinct(xs) && forall x :: x in xs ==> x !in s
    ensures AppendNew(s, xs) == s + xs
  {
    if xs != [] {
      var init := xs[..|xs| - 1];
      assert forall x :: x in init ==> x in xs;
      AppendNewFresh(s, init);
      assert xs[|xs| - 1] !in init;
      assert s + init + [xs[|xs| - 1]] == s + xs;
    }
  }

  /** s without every occurrence of x: what unset() does to the stored quads, since they are distinct. */
  function Erase<T(==, !new)>(s: seq<T>, x: T): (r: seq<T>)
    ensures forall y :: y in r <==> y in s && y != x
    ensures Distinct(s) ==> Distinct(r)
    ensures Distinct(s) ==> |r| == if x in s then |s| - 1 else |s|
  {
    if s == [] then []
    else
      var t := Erase(s[..|s| - 1], x);
      var y := s[|s| - 1];
      assert forall z :: z in s <==> z in s[..|s| - 1] || z == y by {
        assert s == s[..|s| - 1] + [y];
      }
      if y == x then t
      else
        assert Distinct(s) ==> y !in s[..|s| - 1];
        t + [y]
  }

  /** unset() of every key in ks: the other entries keep their keys and their order. */
  function RemoveKeys(es: seq<Entry>, ks: set<nat>): (r: seq<Entry>)
    ensures forall e :: e in r ==> e in es && e.key !in ks
    ensures forall i :: 0 <= i < |es| && es[i].key !in ks ==> es[i] in r
  {
    if es == [] then []
    else
      var t := RemoveKeys(es[..|es| - 1], ks);
      var e := es[|es| - 1];
      assert forall i :: 0 <= i < |es| - 1 ==> es[i] == es[..|es| - 1][i];
      if e.key in ks then t else t + [e]
  }

  /** Removing entries keeps the keys ascending and the quads distinct. */
  lemma {:induction false} RemoveKeysKeepsOrder(es: seq<Entry>, ks: set<nat>)
    requires Ascending(es)
    ensures Ascending(RemoveKeys(es, ks))
    ensures DistinctQuads(es) ==> DistinctQuads(RemoveKeys(es, ks))
  {
    if es != [] {
      var init := es[..|es| - 1];
      var e := es[|es| - 1];
      assert es == init + [e];
      LastAbove(init, e);
      RemoveKeysKeepsOrder(init, ks);
      var t := RemoveKeys(init, ks);
      RemoveKeysSnoc(init, e, ks);
      LastAboveSub(init, t, e);
      if e.key !in ks {
        AscendingSnoc(t, e);
        if DistinctQuads(es) {
          DistinctQuadsSnoc(t, e);
        }
      }
    }
  }

  /** unset($quads[$k]). */
  function Unset(es: seq<Entry>, k: nat): (r: seq<Entry>)
    ensures forall e :: e in r ==> e in es && e.key != k
    ensures forall i :: 0 <= i < |es| && es[i].key != k ==> es[i] in r
  {
    RemoveKeys(es, {k})
  }

  /** Removing keys in two rounds is removing them all at once. */
  lemma {:induction false} RemoveKeysTwice(es: seq<Entry>, ks: set<nat>, more: set<nat>)
    ensures RemoveKeys(RemoveKeys(es, ks), more) == RemoveKeys(es, ks + more)
  {
    if es != [] {
      var init := es[..|es| - 1];
      RemoveKeysTwice(init, ks, more);
      var e := es[|es| - 1];
      if e.key !in ks {
        assert RemoveKeys(es, ks)[..|RemoveKeys(es, ks)| - 1] == RemoveKeys(init, ks);
      }
    }
  }

  /** Removing keys no entry has changes nothing. */
  lemma {:induction false} RemoveAbsentKeys(es: seq<Entry>, ks: set<nat>)
    requires forall i :: 0 <= i < |es| ==> es[i].key !in ks
    ensures RemoveKeys(es, ks) == es
  {
    if es != [] {
      var init := es[..|es| - 1];
      assert forall i :: 0 <= i < |init| ==> init[i] == es[i];
      RemoveAbsentKeys(init, ks);
      assert es == init + [es[|es| - 1]];
    }
  }

  lemma QuadsOfSnoc(es: seq<Entry>, e: Entry)
    ensures QuadsOf(es + [e]) == QuadsOf(es) + [e.quad]
  {
    assert (es + [e])[..|es|] == es;
  }

  lemma QuadsOfSnocMember(es: seq<Entry>, e: Entry, x: Quad)
    ensures x in QuadsOf(es + [e]) <==> x in QuadsOf(es) || x == e.quad
  {
    QuadsOfSnoc(es, e);
  }

  lemma QuadsOfLastMember(es: seq<Entry>, x: Quad)
    requires es != []
    ensures x in QuadsOf(es) <==> x in QuadsOf(es[..|es| - 1]) || x == es[|es| - 1].quad
  {
  }

  /** One round of a loop over the entries of idx. */
  lemma QuadsOfStep(idx: seq<Entry>, i: nat)
    requires i < |idx|
    ensures QuadsOf(idx[..i + 1]) == QuadsOf(idx[..i]) + [idx[i].quad]
  {
    assert idx[..i + 1] == idx[..i] + [idx[i]];
    QuadsOfSnoc(idx[..i], idx[i]);
  }

  lemma EraseSnoc<T(!new)>(s: seq<T>, y: T, x: T)
    ensures Erase(s + [y], x) == if y == x then Erase(s, x) else Erase(s, x) + [y]
  {
    assert (s + [y])[..|s|] == s;
  }

  lemma RemoveKeysSnoc(es: seq<Entry>, e: Entry, ks: set<nat>)
    ensures RemoveKeys(es + [e], ks) == if e.key in ks then RemoveKeys(es, ks) else RemoveKeys(es, ks) + [e]
  {
    assert (es + [e])[..|es|] == es;
  }

  /**
   * When keys and quads are distinct, unset() of the key of a stored entry
   * removes exactly that entry's quad.
   */
  lemma {:induction false} UnsetErases(es: seq<Entry>, p: nat)
    requires Ascending(es) && DistinctQuads(es) && p < |es|
    ensures QuadsOf(Unset(es, es[p].key)) == Erase(QuadsOf(es), es[p].quad)
  {
    var init := es[..|es| - 1];
    var e := es[|es| - 1];
    assert es == init + [e];
    LastAbove(init, e);
    if p == |es| - 1 {
      UnsetLast(init, e);
    } else {
      assert init[p] == es[p];
      UnsetErases(init, p);
      UnsetBeforeLast(init, e, init[p]);
    }
  }

  /** unset() of the last entry's key, above all others, erases its quad. */
  lemma UnsetLast(init: seq<Entry>, e: Entry)
    requires forall f :: f in init ==> f.key < e.key && f.quad != e.quad
    ensures QuadsOf(Unset(init + [e], e.key)) == Erase(QuadsOf(init + [e]), e.quad)
  {
    QuadsOfSnoc(init, e);
    RemoveKeysSnoc(init, e, {e.key});
    EraseSnoc(QuadsOf(init), e.quad, e.quad);
    assert forall i :: 0 <= i < |init| ==> init[i] in init;
    RemoveAbsentKeys(init, {e.key});
    ErasedAbsent(QuadsOf(init), e.quad);
  }

  /** unset() of an earlier entry's key keeps the last entry, as erasing an earlier quad keeps the last quad. */
  lemma UnsetBeforeLast(init: seq<Entry>, e: Entry, f: Entry)
    requires f.key != e.key && f.quad != e.quad
    requires QuadsOf(Unset(init, f.key)) == Erase(QuadsOf(init), f.quad)
    ensures QuadsOf(Unset(init + [e], f.key)) == Erase(QuadsOf(init + [e]), f.quad)
  {
    QuadsOfSnoc(init, e);
    RemoveKeysSnoc(init, e, {f.key});
    EraseSnoc(QuadsOf(init), e.quad, f.quad);
    QuadsOfSnoc(RemoveKeys(init, {f.key}), e);
  }

  lemma {:induction false} ErasedAbsent<T(!new)>(s: seq<T>, x: T)
    requires x !in s
    ensures Erase(s, x) == s
  {
    if s != [] {
      var init := s[..|s| - 1];
      assert s == init + [s[|s| - 1]];
      ErasedAbsent(init, x);
    }
  }

  /** array_values(): the same quads under keys 0, 1, 2, ... */
  function Numbered(qs: seq<Quad>): (r: seq<Entry>)
    ensures |r| == |qs| && QuadsOf(r) == qs && Ascending(r)
    ensures forall i :: 0 <= i < |r| ==> r[i].key == i
    ensures Distinct(qs) ==> DistinctQuads(r)
  {
    seq(|qs|, i requires 0 <= i < |qs| => Entry(i, qs[i]))
  }

  /** s without its element at position p; s itself when p is past the end. */
  function WithoutPosition<T>(s: seq<T>, p: nat): (r: seq<T>)
    ensures p < |s| ==> |r| == |s| - 1 && forall i :: 0 <= i < |r| ==> r[i] == if i < p then s[i] else s[i + 1]
    ensures p >= |s| ==> r == s
  {
    if p < |s| then s[..p] + s[p + 1..] else s
  }

  /**
   * array_splice($quads, $offset, 1): removes the entry at POSITION offset
   * (nothing when offset is past the end) and renumbers all keys.
   */
  function Splice(es: seq<Entry>, offset: nat): (r: seq<Entry>)
    ensures QuadsOf(r) == WithoutPosition(QuadsOf(es), offset)
    ensures forall i :: 0 <= i < |r| ==> r[i].key == i
  {
    Numbered(WithoutPosition(QuadsOf(es), offset))
  }

  /** Renumbered distinct quads satisfy the storage invariant with the count as next free key. */
  lemma NumberedWellKeyed(qs: seq<Quad>)
    requires Distinct(qs)
    ensures WellKeyed(Numbered(qs), |qs|)
  {
  }

  /** So does what array_splice() leaves of stored entries. */
  lemma SpliceWellKeyed(es: seq<Entry>, offset: nat)
    requires DistinctQuads(es)
    ensures WellKeyed(Splice(es, offset), |Splice(es, offset)|)
  {
    DistinctQuadsOf(es);
    WithoutPositionDistinct(QuadsOf(es), offset);
    NumberedWellKeyed(WithoutPosition(QuadsOf(es), offset));
  }

  /** Removing a position before the last keeps the last element last. */
  lemma WithoutPositionSnoc<T>(init: seq<T>, y: T, p: nat)
    requires p < |init|
    ensures WithoutPosition(init + [y], p) == WithoutPosition(init, p) + [y]
  {
    var s := init + [y];
    assert s[..p] == init[..p];
    assert s[p + 1..] == init[p + 1..] + [y];
  }

  lemma DistinctLast<T>(init: seq<T>, y: T)
    requires Distinct(init + [y])
    ensures Distinct(init) && y !in init
  {
    var s := init + [y];
    assert forall i :: 0 <= i < |init| ==> s[i] == init[i];
    assert s[|init|] == y;
  }

  /** Removing one element keeps distinct elements distinct. */
  lemma WithoutPositionDistinct<T>(s: seq<T>, p: nat)
    requires Distinct(s)
    ensures Distinct(WithoutPosition(s, p))
  {
    var r := WithoutPosition(s, p);
    if p < |s| {
      forall i, j | 0 <= i < j < |r| ensures r[i] != r[j] {
        var i' := if i < p then i else i + 1;
        var j' := if j < p then j else j + 1;
        assert r[i] == s[i'] && r[j] == s[j'] && i' < j';
      }
    }
  }

  /**
   * forEach()'s effect on the stored quads: for each snapshotted quad in
   * turn, remove it and add what the callback returns for it (null adds
   * nothing).
   */
  function Rewrite(s: seq<Quad>, qs: seq<Quad>, fn: Quad -> Option<Quad>): (r: seq<Quad>)
    ensures Distinct(s) ==> Distinct(r)
  {
    if qs == [] then s
    else
      var t := Erase(Rewrite(s, qs[..|qs| - 1], fn), qs[|qs| - 1]);
      match fn(qs[|qs| - 1])
      case None => t
      case Some(v) => AppendNew(t, [v])
  }

  lemma RewriteSnoc(s: seq<Quad>, qs: seq<Quad>, q: Quad, fn: Quad -> Option<Quad>)
    ensures Rewrite(s, qs + [q], fn) ==
      match fn(q)
      case None => Erase(Rewrite(s, qs, fn), q)
      case Some(v) => AppendNew(Erase(Rewrite(s, qs, fn), q), [v])
  {
    assert (qs + [q])[..|qs|] == qs;
  }

  /** x is what the callback returned for one of the quads of qs. */
  ghost predicate Produced(qs: seq<Quad>, fn: Quad -> Option<Quad>, x: Quad)
  {
    exists j :: 0 <= j < |qs| && fn(qs[j]) == Some(x)
  }

  lemma ProducedSnoc(qs: seq<Quad>, fn: Quad -> Option<Quad>, x: Quad)
    requires qs != []
    ensures Produced(qs, fn, x) <==> Produced(qs[..|qs| - 1], fn, x) || fn(qs[|qs| - 1]) == Some(x)
  {
    var init := qs[..|qs| - 1];
    if Produced(qs, fn, x) {
      var j :| 0 <= j < |qs| && fn(qs[j]) == Some(x);
      if j < |init| {
        assert fn(init[j]) == Some(x);
      }
    }
    if Produced(init, fn, x) {
      var j :| 0 <= j < |init| && fn(init[j]) == Some(x);
      assert fn(qs[j]) == Some(x);
    }
  }

  /** The last round of forEach(): the last quad goes, its replacement comes. */
  lemma RewriteLast(s: seq<Quad>, qs: seq<Quad>, fn: Quad -> Option<Quad>, x: Quad)
    requires qs != []
    ensures x in Rewrite(s, qs, fn) <==>
      (x in Rewrite(s, qs[..|qs| - 1], fn) && x != qs[|qs| - 1]) || fn(qs[|qs| - 1]) == Some(x)
  {
  }

  /**
   * When no callback result is itself one of the snapshotted quads, the
   * quads after forEach() are the untouched quads plus every callback result.
   */
  lemma {:induction false} RewriteMembership(s: seq<Quad>, qs: seq<Quad>, fn: Quad -> Option<Quad>, x: Quad)
    requires forall j :: 0 <= j < |qs| && fn(qs[j]).Some? ==> fn(qs[j]).value !in qs
    ensures x in Rewrite(s, qs, fn) <==> (x in s && x !in qs) || Produced(qs, fn, x)
  {
    if qs != [] {
      var init := qs[..|qs| - 1];
      var q := qs[|qs| - 1];
      assert forall j :: 0 <= j < |init| ==> init[j] == qs[j];
      assert forall y :: y in qs <==> y in init || y == q by {
        assert qs == init + [q];
      }
      RewriteMembership(s, init, fn, x);
      RewriteLast(s, qs, fn, x);
      ProducedSnoc(qs, fn, x);
      if Produced(init, fn, x) {
        var j :| 0 <= j < |init| && fn(init[j]) == Some(x);
        assert fn(qs[j]) == Some(x) && x != q;
      }
    }
  }

  /** reduce()'s accumulation, left to right. */
  function FoldLeft<A>(fn: (A, Quad) -> A, init: A, qs: seq<Quad>): A
  {
    if qs == [] then init else fn(FoldLeft(fn, init, qs[..|qs| - 1]), qs[|qs| - 1])
  }

  /** One round of a loop folding fn over the quads of idx. */
  lemma FoldLeftStep<A>(fn: (A, Quad) -> A, init: A, idx: seq<Entry>, i: nat)
    requires i < |idx|
    ensures FoldLeft(fn, init, QuadsOf(idx[..i + 1])) == fn(FoldLeft(fn, init, QuadsOf(idx[..i])), idx[i].quad)
  {
    QuadsOfStep(idx, i);
    var qs := QuadsOf(idx[..i + 1]);
    assert qs[..|qs| - 1] == QuadsOf(idx[..i]);
  }

  /** Folding over two parts in turn is folding over the whole. */
  lemma {:induction false} FoldLeftAppend<A>(fn: (A, Quad) -> A, init: A, a: seq<Quad>, b: seq<Quad>)
    ensures FoldLeft(fn, init, a + b) == FoldLeft(fn, FoldLeft(fn, init, a), b)
  {
    if b != [] {
      assert (a + b)[..|a + b| - 1] == a + b[..|b| - 1];
      FoldLeftAppend(fn, init, a, b[..|b| - 1]);
    } else {
      assert a + b == a;
    }
  }
}
