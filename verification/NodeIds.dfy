/** Node identifiers and the order that elections use. */
module NodeIds {
  type NodeId = string

  /** Lexicographic order on the identifier's characters. */
  predicate Less(a: NodeId, b: NodeId) {
    if b == [] then false
    else if a == [] then true
    else a[0] < b[0] || (a[0] == b[0] && Less(a[1..], b[1..]))
  }

  /** Exactly one of "below", "equal" and "above" holds. */
  lemma {:induction false} LessTrichotomy(a: NodeId, b: NodeId)
    ensures !(Less(a, b) && Less(b, a))
    ensures Less(a, b) || Less(b, a) <==> a != b
  {
    if a != [] && b != [] && a[0] == b[0] {
      LessTrichotomy(a[1..], b[1..]);
      assert a == [a[0]] + a[1..] && b == [b[0]] + b[1..];
    }
  }

  lemma {:induction false} LessTransitive(a: NodeId, b: NodeId, c: NodeId)
    requires Less(a, b) && Less(b, c)
    ensures Less(a, c)
  {
    if a != [] && a[0] == b[0] == c[0] {
      LessTransitive(a[1..], b[1..], c[1..]);
    }
  }

  /** `Less` is a strict total order, in quantified form. */
  lemma LessIsTotalOrder()
    ensures forall a, b :: !(Less(a, b) && Less(b, a))
    ensures forall a, b :: Less(a, b) || Less(b, a) || a == b
    ensures forall a :: !Less(a, a)
    ensures forall a, b, c :: Less(a, b) && Less(b, c) ==> Less(a, c)
  {
    forall a: NodeId, b: NodeId
      ensures !(Less(a, b) && Less(b, a))
      ensures Less(a, b) || Less(b, a) || a == b
      ensures !Less(a, a)
    {
      LessTrichotomy(a, b);
      LessTrichotomy(a, a);
    }
    forall a: NodeId, b: NodeId, c: NodeId | Less(a, b) && Less(b, c) ensures Less(a, c) {
      LessTransitive(a, b, c);
    }
  }

  /** `m` is the least element of `ids`. */
  ghost predicate IsLeast(m: NodeId, ids: set<NodeId>) {
    m in ids && forall x :: x in ids && x != m ==> Less(m, x)
  }
}
