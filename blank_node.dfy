/**
 * Blank node identifiers: every id carries the "_:" prefix, and a node
 * built without an id gets "_:genid<n>" from a counter that the class owns
 * (a static counter shared by the whole process in PHP).
 */
module BlankNodes {
  import opened Wrappers
  import opened Text
  import opened Terms

  /** The id a supplied identifier is stored as: "_:" is prepended unless already there. */
  function WithPrefix(id: string): (r: string)
    ensures StartsWith(r, "_:")
    ensures StartsWith(id, "_:") ==> r == id
    ensures !StartsWith(id, "_:") ==> r == "_:" + id
  {
    if StartsWith(id, "_:") then id else "_:" + id
  }

  /** The id generated from counter value n. */
  function GeneratedId(n: nat): (r: string)
    ensures StartsWith(r, "_:")
  {
    "_:genid" + NatToString(n)
  }

  /** Different counter values give different generated ids. */
  lemma GeneratedIdsDistinct(a: nat, b: nat)
    requires a != b
    ensures GeneratedId(a) != GeneratedId(b)
  {
    var p := "_:genid";
    if GeneratedId(a) == GeneratedId(b) {
      assert GeneratedId(a)[|p|..] == NatToString(a);
      assert GeneratedId(b)[|p|..] == NatToString(b);
      NatToStringRoundTrip(a);
      NatToStringRoundTrip(b);
    }
  }

  /** The source of generated blank node ids. */
  class BlankNodeFactory {
    /** BlankNode::$n, the next counter value. */
    var n: nat

    constructor ()
      ensures n == 0
    {
      n := 0;
    }

    /**
     * new BlankNode($id): an absent or empty id is generated from the counter,
     * which then moves on, so the new id differs from every id generated
     * before; a supplied id only gets the "_:" prefix.
     */
    method NewBlankNode(id: Option<string>) returns (t: Term)
      modifies this
      ensures t.BlankNode? && StartsWith(t.id, "_:")
      ensures NotEmpty(id) ==> t.id == WithPrefix(id.value) && n == old(n)
      ensures !NotEmpty(id) ==> t.id == GeneratedId(old(n)) && n == old(n) + 1
      ensures !NotEmpty(id) ==> forall k :: 0 <= k < old(n) ==> t.id != GeneratedId(k)
    {
      var s: string;
      if !NotEmpty(id) {
        s := GeneratedId(n);
        forall k | 0 <= k < n
          ensures s != GeneratedId(k)
        {
          GeneratedIdsDistinct(n, k);
        }
        n := n + 1;
      } else {
        s := id.value;
      }
      t := BlankNode(WithPrefix(s));
    }
  }

  /** getValue() and __toString() of a blank node both give its id. */
  lemma BlankNodeValueIsString(id: string)
    ensures Value(BlankNode(id)) == Success(TermString(BlankNode(id))) == Success(id)
  {
  }
}
