// The part of a projection that is sent to the server (cluster.go): which conditions are written,
// and why the server may apply any of them.
module PushDown {
  import opened Wrappers
  import opened Bytes
  import opened IterationOrder
  import opened Values
  import opened Codec
  import opened Filters

  const ATTRIBUTE_FILTER_TYPE := 1
  const NODE_TYPE_FILTER_TYPE := 2

  // One record of the request.
  datatype Condition = AttributeIs(name: Name, value: Value) | IsServer(server: bool)

  function EncodeCondition(c: Condition): seq<byte> {
    match c
    case AttributeIs(name, value) =>
      LE(2, ATTRIBUTE_FILTER_TYPE) + ((LE(1, STRING_CODE) + EncodeString(name)) + Encode(value))
    case IsServer(server) => LE(2, NODE_TYPE_FILTER_TYPE) + LE(1, if server then 1 else 0)
  }

  function EncodeConditions(cs: seq<Condition>): seq<byte> {
    if cs == [] then [] else EncodeCondition(cs[0]) + EncodeConditions(cs[1..])
  }

  lemma {:induction false} EncodeConditionsConcat(a: seq<Condition>, b: seq<Condition>)
    ensures EncodeConditions(a + b) == EncodeConditions(a) + EncodeConditions(b)
  {
    hide EncodeCondition;
    if a == [] {
      assert a + b == b;
    } else {
      EncodeConditionsConcat(a[1..], b);
      assert (a + b)[1..] == a[1..] + b;
    }
  }

  // The filters with a form for the server.
  predicate IsServerSide(f: Filter) {
    f.Attributes? || f.NodeType?
  }

  function AttributeRecords(attributes: map<Name, Value>, order: seq<Name>): (cs: seq<Condition>)
    requires forall name :: name in order ==> name in attributes
    ensures |cs| == |order|
    ensures forall i :: 0 <= i < |order| ==> cs[i] == AttributeIs(order[i], attributes[order[i]])
  {
    if order == [] then []
    else [AttributeIs(order[0], attributes[order[0]])] + AttributeRecords(attributes, order[1..])
  }

  ghost predicate IsOrder(f: Filter, order: seq<Name>) {
    f.Attributes? ==> IsOrderOf(order, f.attributes.Keys)
  }

  // One order for each filter of the projection.
  ghost predicate AreOrders(fs: seq<Filter>, orders: seq<seq<Name>>) {
    |orders| == |fs| && forall i :: 0 <= i < |fs| ==> IsOrder(fs[i], orders[i])
  }

  lemma OrdersTail(fs: seq<Filter>, orders: seq<seq<Name>>)
    requires fs != [] && AreOrders(fs, orders)
    ensures IsOrder(fs[0], orders[0]) && AreOrders(fs[1..], orders[1..])
  {
    forall i | 0 <= i < |fs[1..]| ensures IsOrder(fs[1..][i], orders[1..][i]) {
      assert IsOrder(fs[i + 1], orders[i + 1]);
    }
  }

  function RecordsOf(f: Filter, order: seq<Name>): seq<Condition>
    requires f.Attributes? ==> forall name :: name in order ==> name in f.attributes
  {
    match f
    case Attributes(attributes) => AttributeRecords(attributes, order)
    case NodeType(isForClients) => [IsServer(!isForClients)]
    case _ => []
  }

  // The records of the filters before the first one that must keep its place.
  ghost function Records(fs: seq<Filter>, orders: seq<seq<Name>>): seq<Condition>
    requires AreOrders(fs, orders)
    decreases |fs|
  {
    if fs == [] || !IsReorderingAllowed(fs[0]) then []
    else
      OrdersTail(fs, orders);
      RecordsOf(fs[0], orders[0]) + Records(fs[1..], orders[1..])
  }

  // The number that is written in front of the records.
  function Count(fs: seq<Filter>): nat
    decreases |fs|
  {
    if fs == [] || !IsReorderingAllowed(fs[0]) then 0
    else (if IsServerSide(fs[0]) then 1 else 0) + Count(fs[1..])
  }

  // ---------------------------------------------------------------- soundness

  // How the server decides: equal attribute values are the same to it, but it may take more values
  // to be the same than Go does (a NaN, for one).
  ghost predicate Holds(c: Condition, n: Node, same: (Value, Value) -> bool) {
    match c
    case AttributeIs(name, value) => name in n.attributes && same(value, n.attributes[name])
    case IsServer(server) => n.isClient != server
  }

  ghost predicate Coarser(same: (Value, Value) -> bool) {
    forall a, b :: GoEqual(a, b) ==> same(a, b)
  }

  lemma {:induction false} RecordHolds(fs: seq<Filter>, orders: seq<seq<Name>>, c: Condition, n: Node, same: (Value, Value) -> bool)
    requires AllReorderable(fs) && AreOrders(fs, orders) && Coarser(same)
    requires c in Records(fs, orders) && PassesAll(fs, n)
    ensures Holds(c, n, same)
    decreases |fs|
  {
    hide GoEqual;
    if fs != [] {
      PassesAllCons(fs, n);
      OrdersTail(fs, orders);
      if c in Records(fs[1..], orders[1..]) {
        RecordHolds(fs[1..], orders[1..], c, n, same);
      } else {
        assert c in RecordsOf(fs[0], orders[0]);
      }
    }
  }

  // The reorderable filters at the front.
  function Front(fs: seq<Filter>): (k: nat)
    ensures k <= |fs| && AllReorderable(fs[..k])
    decreases |fs|
  {
    if fs == [] || !IsReorderingAllowed(fs[0]) then 0
    else
      assert fs[..1 + Front(fs[1..])] == [fs[0]] + fs[1..][..Front(fs[1..])];
      1 + Front(fs[1..])
  }

  lemma {:induction false} RecordsOfFront(fs: seq<Filter>, orders: seq<seq<Name>>)
    requires AreOrders(fs, orders)
    ensures AreOrders(fs[..Front(fs)], orders[..Front(fs)])
    ensures Records(fs, orders) == Records(fs[..Front(fs)], orders[..Front(fs)])
    decreases |fs|
  {
    if fs != [] && IsReorderingAllowed(fs[0]) {
      var k := Front(fs[1..]);
      OrdersTail(fs, orders);
      RecordsOfFront(fs[1..], orders[1..]);
      assert fs[..k + 1][1..] == fs[1..][..k] && orders[..k + 1][1..] == orders[1..][..k];
    }
  }

  // Whatever part of the written conditions the server applies, the projection then keeps the
  // nodes that it keeps of all nodes.
  lemma PushDownSound(fs: seq<Filter>, orders: seq<seq<Name>>, applied: seq<Condition>,
                      same: (Value, Value) -> bool, kept: Node -> bool, nodes: seq<Node>)
    requires AreOrders(fs, orders) && Coarser(same)
    requires forall c :: c in applied ==> c in Records(fs, orders)
    requires forall n :: (forall c :: c in applied ==> Holds(c, n, same)) ==> kept(n)
    ensures ApplyAll(fs, Select(kept, nodes)) == ApplyAll(fs, nodes)
  {
    hide Test, GoEqual, Records, Front, Holds, Coarser;
    var front, rest := fs[..Front(fs)], fs[Front(fs)..];
    assert fs == front + rest;
    ApplyConcat(front, rest, nodes);
    ApplyConcat(front, rest, Select(kept, nodes));
    var pass := n => PassesAll(front, n);
    ApplyReorderable(front, nodes);
    ApplyReorderable(front, Select(kept, nodes));
    SelectTwice(kept, pass, nodes);
    RecordsOfFront(fs, orders);
    forall n ensures (kept(n) && pass(n)) == pass(n) {
      if pass(n) {
        forall c | c in applied ensures Holds(c, n, same) {
          RecordHolds(front, orders[..Front(fs)], c, n, same);
        }
      }
    }
    SelectSame(n => kept(n) && pass(n), pass, nodes);
  }

  lemma {:induction false} SelectConcat(test: Node -> bool, a: seq<Node>, b: seq<Node>)
    ensures Select(test, a + b) == Select(test, a) + Select(test, b)
  {
    if a == [] {
      assert a + b == b;
    } else {
      SelectConcat(test, a[1..], b);
      assert (a + b)[1..] == a[1..] + b;
    }
  }

  lemma {:induction false} SelectAllHere(test: Node -> bool, nodes: seq<Node>)
    requires forall n :: n in nodes ==> test(n)
    ensures Select(test, nodes) == nodes
  {
    if nodes != [] {
      assert forall n :: n in nodes[1..] ==> n in nodes;
      SelectAllHere(test, nodes[1..]);
    }
  }

  // So the nodes of a group are those that its filters give one after another on all nodes.  `got`
  // are the nodes that the client ends up with, in whatever order its node cache and the server give
  // them; each of the others fails some condition that the server applied.
  lemma GroupNodes(filters: seq<Option<Filter>>, orders: seq<seq<Name>>, applied: seq<Condition>,
                   same: (Value, Value) -> bool, got: seq<Node>, others: seq<Node>)
    requires AllPick(filters) && Build(filters).Chain?
    requires AreOrders(Build(filters).filters, orders) && Coarser(same)
    requires forall c :: c in applied ==> c in Records(Build(filters).filters, orders)
    requires forall n :: n in others ==> n !in got && exists c :: c in applied && !Holds(c, n, same)
    ensures Refines(ApplyProjection(Build(filters), got), InOrder(filters, got + others))
  {
    hide Test, GoEqual, Records, Holds, Coarser, Build, InOrder, ApplyAll;
    var kept := n => n !in others;
    SelectConcat(kept, got, others);
    SelectAllHere(kept, got);
    SelectNone(kept, others);
    assert got + [] == got;
    PushDownSound(Build(filters).filters, orders, applied, same, kept, got + others);
    BuildMeaning(filters, got + others);
  }

  // ------------------------------------------------------------------ the count

  ghost predicate HasAttributes(f: Filter) {
    f.Attributes? ==> |f.attributes| >= 1
  }

  ghost predicate AllHaveAttributes(fs: seq<Filter>) {
    forall i :: 0 <= i < |fs| ==> HasAttributes(fs[i])
  }

  // The count is one per filter but there is one record per attribute: the count is never too
  // large, and right exactly when no filter before the first fixed one has several attributes.
  lemma {:induction false} CountAgainstRecords(fs: seq<Filter>, orders: seq<seq<Name>>)
    requires AreOrders(fs, orders) && AllHaveAttributes(fs)
    ensures Count(fs) <= |Records(fs, orders)|
    ensures Count(fs) == |Records(fs, orders)| <==>
      forall i :: 0 <= i < Front(fs) && fs[i].Attributes? ==> |fs[i].attributes| == 1
    decreases |fs|
  {
    if fs != [] && IsReorderingAllowed(fs[0]) {
      OrdersTail(fs, orders);
      forall i | 0 <= i < |fs[1..]| ensures HasAttributes(fs[1..][i]) {
        assert HasAttributes(fs[i + 1]);
      }
      CountAgainstRecords(fs[1..], orders[1..]);
      assert HasAttributes(fs[0]) && IsOrder(fs[0], orders[0]);
      if fs[0].Attributes? {
        OrderLength(orders[0], fs[0].attributes.Keys);
      }
      assert (forall i :: 0 <= i < Front(fs) && fs[i].Attributes? ==> |fs[i].attributes| == 1) <==>
        (fs[0].Attributes? ==> |fs[0].attributes| == 1) &&
        (forall i :: 0 <= i < Front(fs[1..]) && fs[1..][i].Attributes? ==> |fs[1..][i].attributes| == 1) by {
        assert forall i :: 0 <= i < Front(fs[1..]) ==> fs[1..][i] == fs[i + 1];
      }
    }
  }

  // Every filter of a built projection still has attributes.
  lemma {:induction false} BuildHasAttributes(filters: seq<Option<Filter>>)
    requires forall i :: 0 <= i < |filters| && filters[i].Some? ==> HasAttributes(filters[i].value)
    ensures Build(filters).Chain? ==> AllHaveAttributes(Build(filters).filters)
    decreases |filters|
  {
    hide HasAttributes, Append;
    if filters != [] {
      var init, last := filters[..|filters| - 1], filters[|filters| - 1];
      BuildHasAttributes(init);
      AppendHasAttributes(Build(init), last);
    }
  }

  lemma AppendHasAttributes(p: Projection, filter: Option<Filter>)
    requires p.Chain? ==> AllHaveAttributes(p.filters)
    requires filter.Some? ==> HasAttributes(filter.value)
    ensures Append(p, filter).Chain? ==> AllHaveAttributes(Append(p, filter).filters)
  {
    hide HasAttributes;
    if p.Chain? && filter.Some? {
      forall i | 0 <= i < |p.filters| ensures MergeFilter(p.filters[i], filter.value).Merged? ==>
          HasAttributes(MergeFilter(p.filters[i], filter.value).filter) {
        assert HasAttributes(p.filters[i]);
        MergeHasAttributes(p.filters[i], filter.value);
      }
    }
  }

  lemma MergeHasAttributes(prev: Filter, f: Filter)
    requires HasAttributes(prev) && HasAttributes(f)
    ensures MergeFilter(prev, f).Merged? ==> HasAttributes(MergeFilter(prev, f).filter)
  {
    if prev.Attributes? && f.Attributes? {
      var name :| name in prev.attributes;
      assert name in prev.attributes + f.attributes;
    }
  }

  // A server that trusts the count reads only some of the records; the projection corrects that.
  lemma CountedRecordsSound(filters: seq<Option<Filter>>, orders: seq<seq<Name>>,
                            same: (Value, Value) -> bool, kept: Node -> bool, nodes: seq<Node>)
    requires forall i :: 0 <= i < |filters| && filters[i].Some? ==> HasAttributes(filters[i].value)
    requires Build(filters).Chain? && AreOrders(Build(filters).filters, orders) && Coarser(same)
    ensures var fs := Build(filters).filters; Count(fs) <= |Records(fs, orders)|
    ensures var fs := Build(filters).filters;
      (forall n :: (forall c :: c in Records(fs, orders)[..Count(fs)] ==> Holds(c, n, same)) <==> kept(n)) ==>
        ApplyAll(fs, Select(kept, nodes)) == ApplyAll(fs, nodes)
  {
    hide HasAttributes, Records, Holds, Coarser, Count, Test;
    var fs := Build(filters).filters;
    BuildHasAttributes(filters);
    CountAgainstRecords(fs, orders);
    var read := Records(fs, orders)[..Count(fs)];
    if forall n :: (forall c :: c in read ==> Holds(c, n, same)) <==> kept(n) {
      PushDownSound(fs, orders, read, same, kept, nodes);
    }
  }

  // Two attributes are enough for the count to be wrong.
  lemma TwoAttributesMiscounted(a: Name, x: Value, b: Name, y: Value)
    requires a != b
    ensures var fs := Build([Some(Attributes(map[a := x])), Some(Attributes(map[b := y]))]);
      && fs == Chain([Attributes(map[a := x, b := y])])
      && IsOrderOf([a, b], {a, b})
      && AreOrders(fs.filters, [[a, b]])
      && Count(fs.filters) == 1
      && |Records(fs.filters, [[a, b]])| == 2
  {
    hide GoEqual;
    var first, second: Option<Filter> := Some(Attributes(map[a := x])), Some(Attributes(map[b := y]));
    var both := map[a := x, b := y];
    assert [first, second][..1] == [first] && [first][..0] == [];
    assert map[a := x] + map[b := y] == both && both.Keys == {a, b};
    assert Build([first]) == Chain([first.value]);
    assert MergeFilter(first.value, second.value) == Merged(Attributes(both));
    var fs := [Attributes(both)];
    assert [first.value][0 := Attributes(both)] == fs;
    assert AreOrders(fs, [[a, b]]);
    assert fs[1..] == [];
  }
}
