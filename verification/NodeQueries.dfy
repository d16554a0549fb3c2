// Asking a cluster group for one node (cluster.go), against asking for all of its nodes.
module NodeQueries {
  import opened Wrappers
  import opened Values
  import opened Filters
  import opened PushDown
  import ClusterProjection

  ghost predicate DistinctIds(nodes: seq<Node>) {
    forall i, k :: 0 <= i < k < |nodes| ==> nodes[i].id != nodes[k].id
  }

  function WithId(nodes: seq<Node>, id: Uuid): (r: Option<Node>)
    ensures r.None? <==> forall n :: n in nodes ==> n.id != id
    ensures r.Some? ==> r.value in nodes && r.value.id == id
  {
    if nodes == [] then None
    else if nodes[0].id == id then Some(nodes[0])
    else WithId(nodes[1..], id)
  }

  // Node: `nodes` are those whose ids the server gives; the projection is applied to one node only.
  function FindNode(p: Projection, nodes: seq<Node>, id: Uuid): Result<Option<Node>> {
    if p.Chain? && IsExcluded(p.filters, id) then Ok(None)
    else
      match WithId(nodes, id)
      case None => Ok(None)
      case Some(n) =>
        match ApplyProjection(p, [n])
        case Err(e) => Err(e)
        case Ok(rest) => Ok(if rest == [] then None else Some(rest[0]))
  }

  method WithIdIn(nodes: seq<Node>, id: Uuid) returns (r: Option<Node>)
    ensures r == WithId(nodes, id)
  {
    for i := 0 to |nodes|
      invariant WithId(nodes, id) == WithId(nodes[i..], id)
    {
      if nodes[i].id == id {
        return Some(nodes[i]);
      }
      assert nodes[i..][1..] == nodes[i + 1..];
    }
    r := None;
  }

  method GroupNode(proj: ClusterProjection.Projection, nodes: seq<Node>, id: Uuid) returns (r: Result<Option<Node>>)
    ensures r == FindNode(Chain(proj.View()), nodes, id)
  {
    hide ApplyAll, Test;
    var excluded := ClusterProjection.IsExcludedByFilters(proj, id);
    if excluded {
      return Ok(None);
    }
    var n := WithIdIn(nodes, id);
    if n.None? {
      return Ok(None);
    }
    var res := proj.Apply([n.value]);
    match res
    case Err(e) => r := Err(e);
    case Ok(rest) => r := Ok(if |rest| != 0 then Some(rest[0]) else None);
  }

  lemma SameNode(nodes: seq<Node>, n: Node, m: Node)
    requires DistinctIds(nodes) && n in nodes && m in nodes && n.id == m.id
    ensures n == m
  {
    var i :| 0 <= i < |nodes| && nodes[i] == n;
    var k :| 0 <= k < |nodes| && nodes[k] == m;
    assert i == k;
  }

  // ------------------------------------------------------------ filters that pick

  // ForRandom, ForYoungest and ForOldest leave a single node alone.
  ghost predicate LeavesSingle(f: Filter) {
    f.Basic? ==> forall n :: f.choose([n]) == Ok([n])
  }

  ghost predicate AllLeaveSingle(fs: seq<Filter>) {
    forall i :: 0 <= i < |fs| ==> LeavesSingle(fs[i])
  }

  // A node passes the filters that test nodes one by one.
  predicate PassesTests(fs: seq<Filter>, n: Node) {
    forall i :: 0 <= i < |fs| && IsReorderingAllowed(fs[i]) ==> Test(fs[i], n)
  }

  // What is left of a single node: the filters that pick have no say.
  lemma {:induction false} SingleNode(fs: seq<Filter>, n: Node)
    requires AllLeaveSingle(fs)
    ensures ApplyAll(fs, [n]) == Ok(if PassesTests(fs, n) then [n] else [])
    decreases |fs|
  {
    if fs != [] {
      var f, rest := fs[0], fs[1..];
      assert LeavesSingle(f);
      assert AllLeaveSingle(rest) by {
        assert forall i :: 0 <= i < |rest| ==> rest[i] == fs[i + 1];
      }
      SingleNode(rest, n);
      assert PassesTests(fs, n) <==> (IsReorderingAllowed(f) ==> Test(f, n)) && PassesTests(rest, n) by {
        hide Test, IsReorderingAllowed;
        assert forall i :: 0 < i < |fs| ==> fs[i] == rest[i - 1];
      }
      hide Test;
      SelectOne(f, n);
    }
  }

  lemma SelectOne(f: Filter, n: Node)
    ensures IsReorderingAllowed(f) ==> Apply(f, [n]) == Ok(if Test(f, n) then [n] else [])
  {
    hide Test;
    if IsReorderingAllowed(f) {
      SelectFromOne(m => Test(f, m), n);
    }
  }

  lemma SelectFromOne(test: Node -> bool, n: Node)
    ensures Select(test, [n]) == if test(n) then [n] else []
  {
    assert [n][1..] == [];
  }

  // Node finds exactly the nodes that pass all the tests, whatever picks among them.
  lemma FindNodeExact(fs: seq<Filter>, nodes: seq<Node>, id: Uuid)
    requires AllLeaveSingle(fs) && DistinctIds(nodes)
    ensures FindNode(Chain(fs), nodes, id).Ok?
    ensures forall n: Node :: FindNode(Chain(fs), nodes, id) == Ok(Some(n)) <==>
      n.id == id && n in nodes && PassesTests(fs, n)
  {
    hide Test, ApplyAll;
    if !IsExcluded(fs, id) && WithId(nodes, id).Some? {
      SingleNode(fs, WithId(nodes, id).value);
    }
    forall n: Node | n.id == id && n in nodes && PassesTests(fs, n)
      ensures FindNode(Chain(fs), nodes, id) == Ok(Some(n))
    {
      assert !IsExcluded(fs, id) by {
        Excludes(fs, n);
      }
      SameNode(nodes, n, WithId(nodes, id).value);
    }
  }

  lemma Excludes(fs: seq<Filter>, n: Node)
    requires PassesTests(fs, n)
    ensures !IsExcluded(fs, n.id)
  {
    assert |fs| == 1 && fs[0].NodeIds? ==> Test(fs[0], n);
  }

  // The conditions applied by the server make no difference to Node either, for any filters.
  lemma FindNodePushedDown(fs: seq<Filter>, orders: seq<seq<Name>>, applied: seq<Condition>,
                           same: (Value, Value) -> bool, kept: Node -> bool, nodes: seq<Node>, id: Uuid)
    requires DistinctIds(nodes) && AreOrders(fs, orders) && Coarser(same)
    requires forall c :: c in applied ==> c in Records(fs, orders)
    requires forall n :: (forall c :: c in applied ==> Holds(c, n, same)) ==> kept(n)
    ensures FindNode(Chain(fs), Select(kept, nodes), id) == FindNode(Chain(fs), nodes, id)
  {
    hide Test, Records, Holds, Coarser, AreOrders;
    var asked := WithId(nodes, id);
    SelectPasses(kept, nodes);
    if asked.Some? {
      var n := asked.value;
      if kept(n) {
        SameNode(nodes, n, WithId(Select(kept, nodes), id).value);
      } else {
        PushDownSound(fs, orders, applied, same, kept, [n]);
        assert Select(kept, [n]) == [];
        assert WithId(Select(kept, nodes), id).None? by {
          forall m | m in Select(kept, nodes) ensures m.id != id {
            if m.id == id {
              SameNode(nodes, n, m);
            }
          }
        }
      }
    }
  }

  // Without filters that must keep their place, Node and Nodes agree: for every list of filters, and
  // whatever part of the conditions the server applies, Node finds a node if and only if it is among
  // those that the filters leave of all nodes.
  lemma NodeAgreesWithNodes(filters: seq<Option<Filter>>, orders: seq<seq<Name>>, applied: seq<Condition>,
                            same: (Value, Value) -> bool, kept: Node -> bool, nodes: seq<Node>, n: Node)
    requires DistinctIds(nodes)
    requires forall i :: 0 <= i < |filters| && filters[i].Some? ==> IsReorderingAllowed(filters[i].value)
    requires var p := Build(filters);
      p.Chain? ==>
        && AreOrders(p.filters, orders) && Coarser(same)
        && (forall c :: c in applied ==> c in Records(p.filters, orders))
        && (forall m :: (forall c :: c in applied ==> Holds(c, m, same)) ==> kept(m))
    ensures InOrder(filters, nodes).Ok?
    ensures FindNode(Build(filters), Select(kept, nodes), n.id) == Ok(Some(n)) <==> n in InOrder(filters, nodes).value
  {
    hide Test, Records, Holds, Coarser, AreOrders, Build, InOrder, FindNode, ApplyAll;
    var p := Build(filters);
    BuildReorderable(filters, nodes);
    if p.Chain? {
      BuildAllReorderable(filters);
      FindNodePushedDown(p.filters, orders, applied, same, kept, nodes, n.id);
      FindNodeExact(p.filters, nodes, n.id);
      ApplyReorderable(p.filters, nodes);
      SelectPasses(m => PassesAll(p.filters, m), nodes);
    } else {
      EmptyFindsNone(Select(kept, nodes), n.id);
    }
  }

  // The shared empty projection, by its meaning and by the filter that it holds.
  lemma EmptyFindsNone(nodes: seq<Node>, id: Uuid)
    ensures FindNode(Empty, nodes, id) == Ok(None)
    ensures FindNode(Chain([Basic(_ => Ok([]))]), nodes, id) == Ok(None)
  {
    hide Apply, ApplyAll;
    if WithId(nodes, id).Some? {
      EmptyProjectionMeaning([WithId(nodes, id).value]);
    }
  }

  lemma {:induction false} BuildAllReorderable(filters: seq<Option<Filter>>)
    requires forall i :: 0 <= i < |filters| && filters[i].Some? ==> IsReorderingAllowed(filters[i].value)
    ensures Build(filters).Chain? ==> AllReorderable(Build(filters).filters)
    decreases |filters|
  {
    if filters != [] {
      BuildAllReorderable(filters[..|filters| - 1]);
    }
  }

  // ------------------------------------------------------------------ the youngest

  // The first node of the highest order.
  function YoungestIndex(nodes: seq<Node>): (k: nat)
    requires nodes != []
    ensures k < |nodes|
    ensures IsYoungestAt(nodes, k)
  {
    var last := |nodes| - 1;
    if last == 0 then 0
    else
      var k := YoungestIndex(nodes[..last]);
      assert forall i :: 0 <= i < last ==> nodes[..last][i] == nodes[i];
      if nodes[last].order > nodes[k].order then last else k
  }

  // No node has a higher order, and none before it has the same.
  ghost predicate IsYoungest(nodes: seq<Node>, n: Node) {
    exists k :: 0 <= k < |nodes| && nodes[k] == n && IsYoungestAt(nodes, k)
  }

  predicate IsYoungestAt(nodes: seq<Node>, k: nat)
    requires k < |nodes|
  {
    && (forall i :: 0 <= i < |nodes| ==> nodes[i].order <= nodes[k].order)
    && (forall i :: 0 <= i < k ==> nodes[i].order < nodes[k].order)
  }

  lemma YoungestUnique(nodes: seq<Node>, n: Node)
    requires nodes != []
    ensures IsYoungest(nodes, n) <==> n == nodes[YoungestIndex(nodes)]
  {
    var k := YoungestIndex(nodes);
    assert IsYoungestAt(nodes, k);
    if IsYoungest(nodes, n) {
      var i :| 0 <= i < |nodes| && nodes[i] == n && IsYoungestAt(nodes, i);
      assert i == k;
    }
  }

  // ForYoungest
  function Youngest(nodes: seq<Node>): Result<seq<Node>> {
    if |nodes| < 2 then Ok(nodes) else Ok([nodes[YoungestIndex(nodes)]])
  }

  method ChooseYoungest(nodes: seq<Node>) returns (r: Result<seq<Node>>)
    ensures r == Youngest(nodes)
  {
    if |nodes| < 2 {
      return Ok(nodes);
    }
    var youngest := 0;
    for idx := 0 to |nodes|
      invariant youngest == if idx == 0 then 0 else YoungestIndex(nodes[..idx])
    {
      assert nodes[..idx + 1][..idx] == nodes[..idx];
      if nodes[idx].order > nodes[youngest].order {
        youngest := idx;
      }
    }
    assert nodes[..|nodes|] == nodes;
    return Ok([nodes[youngest]]);
  }

  // With ForYoungest anywhere behind filters that test, Node and Nodes agree on a node exactly if it fails
  // a test or is the youngest of those that pass the tests before ForYoungest: Node finds every node that
  // passes all tests.
  lemma YoungestAgreesExactly(fs: seq<Filter>, gs: seq<Filter>, nodes: seq<Node>, n: Node)
    requires AllReorderable(fs) && AllLeaveSingle(gs) && DistinctIds(nodes) && n in nodes
    ensures var p, passed := Chain(fs + [Basic(Youngest)] + gs), Select(m => PassesAll(fs, m), nodes);
      var left := ApplyProjection(p, nodes);
      && left.Ok?
      && (FindNode(p, nodes, n.id) == Ok(Some(n)) <==> PassesAll(fs, n) && PassesTests(gs, n))
      && (n in left.value <==> IsYoungest(passed, n) && PassesTests(gs, n))
      && ((FindNode(p, nodes, n.id) == Ok(Some(n)) <==> n in left.value) <==>
          !PassesAll(fs, n) || !PassesTests(gs, n) || IsYoungest(passed, n))
  {
    hide Test, FindNode, ApplyAll, IsYoungest, LeavesSingle, Apply;
    var youngest := Basic(Youngest);
    var passed := Select(m => PassesAll(fs, m), nodes);
    SplitTests(fs, youngest, gs, n);
    FindNodeExact(fs + [youngest] + gs, nodes, n.id);
    ApplyReorderable(fs, nodes);
    ApplyConcat(fs, [youngest], nodes);
    ApplyConcat(fs + [youngest], gs, nodes);
    SelectPasses(m => PassesAll(fs, m), nodes);
    ThenYoungest(passed);
    if passed == [] {
      NoneLeft(gs, n);
    } else {
      YoungestUnique(passed, n);
      SingleNode(gs, passed[YoungestIndex(passed)]);
    }
  }

  lemma ThenYoungest(nodes: seq<Node>)
    ensures ApplyAll([Basic(Youngest)], nodes) == Ok(if nodes == [] then [] else [nodes[YoungestIndex(nodes)]])
  {
    var f: Option<Filter> := Some(Basic(Youngest));
    ThenApplies(Ok(nodes), f);
    assert Then(Ok(nodes), f) == ApplyAll([f.value], nodes);
    if |nodes| == 1 {
      assert YoungestIndex(nodes) == 0 && nodes == [nodes[0]];
    }
  }

  lemma NoneLeft(gs: seq<Filter>, n: Node)
    ensures ApplyAll(gs, []) == Ok([]) && !IsYoungest([], n)
  {
  }

  lemma SplitTests(fs: seq<Filter>, f: Filter, gs: seq<Filter>, n: Node)
    requires AllReorderable(fs) && f == Basic(Youngest) && AllLeaveSingle(gs)
    ensures AllLeaveSingle(fs + [f] + gs)
    ensures PassesTests(fs + [f] + gs, n) <==> PassesAll(fs, n) && PassesTests(gs, n)
  {
    hide Test;
    var all := fs + [f] + gs;
    assert forall i :: 0 <= i < |fs| ==> all[i] == fs[i];
    assert forall i :: 0 <= i < |gs| ==> all[|fs| + 1 + i] == gs[i];
    assert forall i :: |fs| < i < |all| ==> all[i] == gs[i - |fs| - 1];
    assert all[|fs|] == f && LeavesSingle(f);
  }

  // So of any two nodes of different order, Node finds the older, which is not among the nodes.
  lemma OlderNodeFound(older: Node, younger: Node)
    requires older.id != younger.id && older.order < younger.order
    ensures var p, nodes := Build([Some(Basic(Youngest))]), [older, younger];
      && FindNode(p, nodes, older.id) == Ok(Some(older))
      && ApplyProjection(p, nodes) == Ok([younger])
  {
    var f: Option<Filter> := Some(Basic(Youngest));
    var nodes := [older, younger];
    assert [f][..0] == [] && [] + [f.value] == [f.value];
    assert Build([f]) == Chain([f.value]);
    YoungestAgreesExactly([], [], nodes, older);
    assert [] + [f.value] + [] == [f.value];
    ThenYoungest(nodes);
    SelectAll(m => PassesAll([], m), nodes);
    assert YoungestIndex(nodes) == 1;
  }
}
