// The orders in which Go may range over a map: every key once.
module IterationOrder {
  ghost predicate IsOrderOf<K(!new)>(order: seq<K>, keys: set<K>) {
    (forall k :: k in keys <==> k in order) && forall i, j :: 0 <= i < j < |order| ==> order[i] != order[j]
  }

  lemma {:induction false} OrderLength<K(!new)>(order: seq<K>, keys: set<K>)
    requires IsOrderOf(order, keys)
    ensures |order| == |keys|
    decreases |order|
  {
    if order == [] {
      assert keys == {};
    } else {
      var k, rest := order[0], order[1..];
      assert k in keys;
      forall x ensures x in keys - {k} <==> x in rest {
        if x in keys - {k} {
          var i :| 0 <= i < |order| && order[i] == x;
          assert rest[i - 1] == x;
        }
      }
      OrderLength(rest, keys - {k});
    }
  }

  // Every finite set of keys has an order.
  lemma {:induction false} AnOrder<K(!new)>(keys: set<K>) returns (order: seq<K>)
    ensures IsOrderOf(order, keys)
    decreases keys
  {
    if keys == {} {
      order := [];
    } else {
      var k :| k in keys;
      var rest := AnOrder(keys - {k});
      order := rest + [k];
      assert forall i :: 0 <= i < |rest| ==> rest[i] in keys - {k};
      assert forall x :: x in order <==> x in rest || x == k;
    }
  }
}
