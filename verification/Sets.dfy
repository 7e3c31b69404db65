/** Counting facts about finite sets. */
module Sets {
  lemma {:induction false} SubsetSize<T>(a: set<T>, b: set<T>)
    requires a <= b
    ensures |a| <= |b|
    ensures |a| == |b| ==> a == b
  {
    if a != {} {
      var x :| x in a;
      SubsetSize(a - {x}, b - {x});
    }
  }

  /** Some `k` members of `s`. */
  ghost function Take<T(!new)>(s: set<T>, k: nat): (r: set<T>)
    requires k <= |s|
    ensures r <= s && |r| == k
  {
    if k == 0 then {}
    else
      var x :| x in s;
      Take(s - {x}, k - 1) + {x}
  }

  lemma DisjointUnionSize<T>(a: set<T>, b: set<T>)
    requires a !! b
    ensures |a + b| == |a| + |b|
  {
  }

  /** Members of `a` and `b` taken together. */
  lemma UnionSize<T>(a: set<T>, b: set<T>)
    ensures |a + b| == |a - b| + |b|
    ensures |a + b| <= |a| + |b|
  {
    assert a + b == (a - b) + b;
    SubsetSize(a - b, a);
  }

  /** Two families of subsets of fixed sizes always meet exactly when they cannot fit side by side. */
  lemma SubsetsMeet<T(!new)>(a: set<T>, b: set<T>, q: nat, r: nat)
    requires q <= |a| && r <= |b|
    ensures (forall x: set<T>, y: set<T> :: x <= a && |x| >= q && y <= b && |y| >= r ==> x * y != {})
       <==> |a + b| < q + r
  {
    if |a + b| < q + r {
      forall x: set<T>, y: set<T> | x <= a && |x| >= q && y <= b && |y| >= r ensures x * y != {} {
        if x * y == {} {
          SubsetSize(x + y, a + b);
        }
      }
    } else {
      var x, y := FitSideBySide(a, b, q, r);
      assert x * y == {};
    }
  }

  lemma FitSideBySide<T(!new)>(a: set<T>, b: set<T>, q: nat, r: nat) returns (x: set<T>, y: set<T>)
    requires q <= |a| && r <= |b| && q + r <= |a + b|
    ensures x <= a && |x| == q && y <= b && |y| == r && x !! y
  {
    UnionSize(a, b);
    if q <= |a - b| {
      x := Take(a - b, q);
      assert b - x == b;
    } else {
      var shared := a * b;
      assert a == (a - b) + shared;
      var extra := Take(shared, q - |a - b|);
      x := (a - b) + extra;
      assert b == (b - x) + extra;
    }
    y := Take(b - x, r);
  }
}
