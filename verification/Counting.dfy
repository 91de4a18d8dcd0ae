/** Cardinalities of finite ranges and injective maps. */
module Counting {

  /** The numbers below `n`. */
  ghost function Below(n: nat): (r: set<nat>)
    ensures forall i :: i in r <==> 0 <= i < n
    ensures |r| == n
  {
    if n == 0 then {} else Below(n - 1) + {n - 1}
  }

  lemma {:induction false} SubsetSize<T>(a: set<T>, b: set<T>)
    requires a <= b
    ensures |a| <= |b|
    ensures a != b ==> |a| < |b|
  {
    assert b == a + (b - a);
    if a != b {
      assert b - a != {};
    }
  }

  /** A map that sends distinct keys to distinct values has as many keys as values. */
  lemma {:induction false} InjectiveSize<K>(m: map<K, nat>, image: set<nat>)
    requires forall k :: k in m ==> m[k] in image
    requires forall v :: v in image ==> exists k :: k in m && m[k] == v
    requires forall j, k :: j in m && k in m && m[j] == m[k] ==> j == k
    ensures |m| == |image|
    decreases |m|
  {
    if m == map[] {
      assert image == {};
    } else {
      var k :| k in m;
      var m', image' := m - {k}, image - {m[k]};
      assert |m'| == |m| - 1 by {
        assert m'.Keys == m.Keys - {k};
      }
      forall v | v in image'
        ensures exists j :: j in m' && m'[j] == v
      {
        var j :| j in m && m[j] == v;
        assert j in m' && m'[j] == v;
      }
      InjectiveSize(m', image');
    }
  }
}
