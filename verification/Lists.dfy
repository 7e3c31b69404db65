/**
 Keyed lists: the first-match search, the "replace the first match or append"
 edit and the "drop one entry" edit that every cluster mutation is made of.
 */
module Lists {

  /** Index of the first entry satisfying `p`, or `|s|` when there is none. */
  function FirstIndex<T>(s: seq<T>, p: T -> bool): (i: nat)
    ensures i <= |s|
    ensures i < |s| ==> p(s[i])
    ensures forall j :: 0 <= j < i ==> !p(s[j])
  {
    if s == [] || p(s[0]) then 0 else 1 + FirstIndex(s[1..], p)
  }

  lemma FirstIndexUnique<T>(s: seq<T>, p: T -> bool, i: nat)
    requires i <= |s| && (i < |s| ==> p(s[i]))
    requires forall j :: 0 <= j < i ==> !p(s[j])
    ensures i == FirstIndex(s, p)
  {
    var k := FirstIndex(s, p);
    assert k < |s| ==> i <= k;
  }

  /** The scan loop shared by every lookup in the configuration. */
  method Search<T>(s: seq<T>, p: T -> bool) returns (i: nat)
    ensures i == FirstIndex(s, p)
  {
    i := 0;
    while i < |s| && !p(s[i])
      invariant i <= |s|
      invariant forall j :: 0 <= j < i ==> !p(s[j])
    {
      i := i + 1;
    }
    FirstIndexUnique(s, p, i);
  }

  function Upsert<T>(s: seq<T>, matches: T -> bool, x: T): seq<T> {
    var i := FirstIndex(s, matches);
    if i < |s| then s[i := x] else s + [x]
  }

  function RemoveAt<T>(s: seq<T>, i: nat): seq<T>
    requires i < |s|
  {
    s[..i] + s[i + 1..]
  }

  /**
   `x` is the first entry of `after` that satisfies `p`; every other position is as
   in `before`, and a position was added only because nothing there satisfied `p`.
   */
  ghost predicate Placed<T(!new)>(before: seq<T>, after: seq<T>, p: T -> bool, x: T) {
    var i := FirstIndex(after, p);
    && i < |after| && after[i] == x
    && |after| == |before| + (if exists e :: e in before && p(e) then 0 else 1)
    && forall j :: 0 <= j < |before| && j != i ==> after[j] == before[j]
  }

  /** The same, for any wording `q` of the matching rule `p`. */
  lemma UpsertPlaces<T(!new)>(s: seq<T>, p: T -> bool, q: T -> bool, x: T)
    requires p(x) && forall e :: p(e) <==> q(e)
    ensures Placed(s, Upsert(s, p, x), q, x)
  {
    var i := FirstIndex(s, p);
    FirstIndexUnique(Upsert(s, p, x), q, i);
    assert i < |s| ==> s[i] in s;
  }

  /** `k` is the first position that satisfies `p`. */
  predicate IsFirst<T>(s: seq<T>, p: T -> bool, k: int) {
    0 <= k < |s| && p(s[k]) && forall j :: 0 <= j < k ==> !p(s[j])
  }

  /** `after` is `before` without the entry at `k`. */
  ghost predicate Without<T(!new)>(before: seq<T>, after: seq<T>, k: int) {
    && 0 <= k < |before| && |after| == |before| - 1
    && (forall j :: 0 <= j < k ==> after[j] == before[j])
    && (forall j :: k <= j < |after| ==> after[j] == before[j + 1])
  }

  /** `after` is `before` without its first entry that satisfies `p`. */
  ghost predicate TakenOut<T(!new)>(before: seq<T>, after: seq<T>, p: T -> bool) {
    exists k :: IsFirst(before, p, k) && Without(before, after, k)
  }

  lemma RemoveAtIsWithout<T(!new)>(s: seq<T>, i: nat)
    requires i < |s|
    ensures Without(s, RemoveAt(s, i), i)
  {
  }

  lemma RemovalTakesOut<T(!new)>(s: seq<T>, p: T -> bool, q: T -> bool)
    requires forall e :: p(e) <==> q(e)
    ensures FirstIndex(s, p) < |s| <==> exists x :: x in s && q(x)
    ensures FirstIndex(s, p) < |s| ==> TakenOut(s, RemoveAt(s, FirstIndex(s, p)), q)
  {
    var i := FirstIndex(s, p);
    if i < |s| {
      assert s[i] in s && q(s[i]);
      RemoveAtIsWithout(s, i);
      assert IsFirst(s, q, i);
    }
  }

  lemma Regroup<T>(a: seq<T>, b: seq<T>, c: seq<T>)
    ensures a + b + c == a + (b + c)
  {
  }

  function Keys<T>(s: seq<T>, key: T -> string): set<string> {
    set i | 0 <= i < |s| :: key(s[i])
  }

  ghost predicate DistinctBy<T(!new)>(s: seq<T>, key: T -> string) {
    forall i, j :: 0 <= i < j < |s| ==> key(s[i]) != key(s[j])
  }

  lemma KeysAppend<T(!new)>(s: seq<T>, x: T, key: T -> string)
    ensures Keys(s + [x], key) == Keys(s, key) + {key(x)}
    ensures DistinctBy(s + [x], key) <==> DistinctBy(s, key) && key(x) !in Keys(s, key)
  {
    var r := s + [x];
    assert r[|s|] == x;
    assert forall i :: 0 <= i < |s| ==> r[i] == s[i];
    forall k | k in Keys(s, key) + {key(x)} ensures k in Keys(r, key) {
      if k in Keys(s, key) {
        var j :| 0 <= j < |s| && key(s[j]) == k;
        assert key(r[j]) == k;
      }
    }
    if DistinctBy(r, key) {
      forall i, j | 0 <= i < j < |s| ensures key(s[i]) != key(s[j]) {
        assert key(r[i]) != key(r[j]);
      }
    }
  }

  /** Distinct keys are as many as the entries that carry them. */
  lemma {:induction false} DistinctSize<T(!new)>(s: seq<T>, key: T -> string)
    requires DistinctBy(s, key)
    ensures |Keys(s, key)| == |s|
  {
    if s != [] {
      var n := |s| - 1;
      var front := s[..n];
      assert s == front + [s[n]];
      KeysAppend(front, s[n], key);
      DistinctSize(front, key);
    }
  }

  /** Upserting by key keeps keys distinct and adds exactly the new key. */
  lemma UpsertByKey<T(!new)>(s: seq<T>, matches: T -> bool, key: T -> string, x: T)
    requires DistinctBy(s, key)
    requires forall e :: matches(e) <==> key(e) == key(x)
    ensures DistinctBy(Upsert(s, matches, x), key)
    ensures Keys(Upsert(s, matches, x), key) == Keys(s, key) + {key(x)}
    ensures |Upsert(s, matches, x)| == if key(x) in Keys(s, key) then |s| else |s| + 1
  {
    var r, i := Upsert(s, matches, x), FirstIndex(s, matches);
    forall k | k in Keys(s, key) + {key(x)} ensures k in Keys(r, key) {
      if k in Keys(s, key) {
        var j :| 0 <= j < |s| && key(s[j]) == k;
        assert key(r[j]) == k;
      } else {
        assert key(r[if i < |s| then i else |s|]) == k;
      }
    }
    if key(x) in Keys(s, key) {
      var j :| 0 <= j < |s| && key(s[j]) == key(x);
      assert matches(s[j]);
    }
  }

  /** Dropping an entry keeps keys distinct and removes exactly its key. */
  lemma RemoveByKey<T(!new)>(s: seq<T>, key: T -> string, i: nat)
    requires i < |s| && DistinctBy(s, key)
    ensures DistinctBy(RemoveAt(s, i), key)
    ensures Keys(RemoveAt(s, i), key) == Keys(s, key) - {key(s[i])}
  {
    var r := RemoveAt(s, i);
    forall k | k in Keys(s, key) - {key(s[i])} ensures k in Keys(r, key) {
      var j :| 0 <= j < |s| && key(s[j]) == k;
      assert key(r[if j < i then j else j - 1]) == k;
    }
    forall k | k in Keys(r, key) ensures k in Keys(s, key) - {key(s[i])} {
      var j :| 0 <= j < |r| && key(r[j]) == k;
      assert r[j] == s[if j < i then j else j + 1];
    }
  }

  /** Removal never breaks uniqueness of any key. */
  lemma RemoveKeepsDistinct<T(!new)>(s: seq<T>, key: T -> string, i: nat)
    requires i < |s| && DistinctBy(s, key)
    ensures DistinctBy(RemoveAt(s, i), key)
  {
    RemoveByKey(s, key, i);
  }

  ghost predicate AtMostOneMatch<T(!new)>(s: seq<T>, matches: T -> bool) {
    forall i, j :: 0 <= i < |s| && 0 <= j < |s| && matches(s[i]) && matches(s[j]) ==> i == j
  }

  /**
   Replacing the first entry that shares either of two keys keeps both keys
   unique exactly when at most one entry shares a key with the newcomer.
   */
  lemma UpsertTwoKeys<T(!new)>(s: seq<T>, matches: T -> bool, id: T -> string, name: T -> string, x: T)
    requires DistinctBy(s, id) && DistinctBy(s, name)
    requires forall e :: matches(e) <==> id(e) == id(x) || name(e) == name(x)
    ensures (DistinctBy(Upsert(s, matches, x), id) && DistinctBy(Upsert(s, matches, x), name))
       <==> AtMostOneMatch(s, matches)
  {
    var r, i := Upsert(s, matches, x), FirstIndex(s, matches);
    if !AtMostOneMatch(s, matches) {
      var j, k :| 0 <= j < |s| && 0 <= k < |s| && matches(s[j]) && matches(s[k]) && j != k;
      var m := if j == i then k else j;
      assert i < m && matches(s[m]) && r[i] == x && r[m] == s[m];
      if id(s[m]) == id(x) {
        assert !DistinctBy(r, id);
      } else {
        assert !DistinctBy(r, name);
      }
    }
  }
}
