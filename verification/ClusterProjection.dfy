// Filters and projections as the objects of cluster.go: merging changes filters in place.
module ClusterProjection {
  import opened Wrappers
  import opened IterationOrder
  import opened Values
  import opened Filters
  import FilterMeanings

  // A Go set of node ids.
  class NodeIdFilter {
    var nodeIds: set<Uuid>

    constructor (nodeIds: set<Uuid>)
      ensures this.nodeIds == nodeIds
    {
      this.nodeIds := nodeIds;
    }
  }

  class NodeAttributesFilter {
    var attributes: map<Name, Value>

    constructor (attributes: map<Name, Value>)
      ensures this.attributes == attributes
    {
      this.attributes := attributes;
    }
  }

  // clusterNodeFilter: the two kinds that merging changes are references.
  datatype FilterRef =
    | IdsRef(ids: NodeIdFilter)
    | AttributesRef(attrs: NodeAttributesFilter)
    | TypeRef(isForClients: bool)
    | PredicateRef(accepts: Node -> bool)
    | BasicRef(choose: seq<Node> -> Result<seq<Node>>)
  {
    function Objects(): set<object> {
      match this
      case IdsRef(o) => {o}
      case AttributesRef(o) => {o}
      case _ => {}
    }

    function View(): Filter
      reads Objects()
    {
      match this
      case IdsRef(o) => NodeIds(o.nodeIds)
      case AttributesRef(o) => Attributes(o.attributes)
      case TypeRef(isForClients) => NodeType(isForClients)
      case PredicateRef(accepts) => Predicate(accepts)
      case BasicRef(choose) => Basic(choose)
    }
  }

  // The ids of `a` that `b` has, taken in the given order.
  method Intersect(a: set<Uuid>, b: set<Uuid>, order: seq<Uuid>) returns (both: set<Uuid>)
    requires IsOrderOf(order, b)
    ensures both == a * b
  {
    both := {};
    for i := 0 to |order|
      invariant both == set id | id in order[..i] && id in a
    {
      assert order[..i + 1] == order[..i] + [order[i]];
      if order[i] in a {
        both := both + {order[i]};
      }
    }
    assert order[..|order|] == order;
  }

  // The loop of nodeAttributesFilter.merge.  It stops at the first conflict, with the attributes
  // before that one added already.
  method MergeAttributes(f: NodeAttributesFilter, more: map<Name, Value>, order: seq<Name>) returns (ok: bool)
    requires IsOrderOf(order, more.Keys)
    modifies f
    ensures ok <==> forall name :: name in old(f.attributes) && name in more ==> GoEqual(old(f.attributes)[name], more[name])
    ensures FilterMeanings.AllInRange(old(f.attributes)) && FilterMeanings.AllInRange(more) ==>
      (ok <==> forall name :: name in old(f.attributes) && name in more ==>
                 FilterMeanings.SameValue(old(f.attributes)[name], more[name]))
    ensures ok ==> f.attributes == old(f.attributes) + more
  {
    hide GoEqual, FilterMeanings.SameValue, FilterMeanings.InRange;
    ghost var prev := f.attributes;
    if FilterMeanings.AllInRange(prev) && FilterMeanings.AllInRange(more) {
      FilterMeanings.AllSame(prev, more);
    }
    for i := 0 to |order|
      invariant f.attributes.Keys == prev.Keys + set name | name in order[..i]
      invariant forall name :: name in f.attributes ==>
        f.attributes[name] == if name in order[..i] then more[name] else prev[name]
      invariant forall name :: name in order[..i] && name in prev ==> GoEqual(prev[name], more[name])
    {
      var name := order[i];
      assert order[..i + 1] == order[..i] + [name];
      assert name !in order[..i];
      if name in f.attributes && !GoEqual(f.attributes[name], more[name]) {
        return false;
      }
      f.attributes := f.attributes[name := more[name]];
    }
    assert order[..|order|] == order;
    assert f.attributes == prev + more;
    ok := true;
  }

  // The order in which a merge ranges over the incoming filter.
  datatype MergeOrder = MergeOrder(ids: seq<Uuid>, names: seq<Name>)

  ghost predicate Ranges(order: MergeOrder, f: Filter) {
    && (f.NodeIds? ==> IsOrderOf(order.ids, f.ids))
    && (f.Attributes? ==> IsOrderOf(order.names, f.attributes.Keys))
  }

  // The result of merging, as the source returns it: whether the two can merge, and nil for a
  // filter that accepts nothing.
  method MergeInto(prev: FilterRef, f: FilterRef, order: MergeOrder) returns (ok: bool, merged: Option<FilterRef>)
    requires prev.Objects() !! f.Objects() && Ranges(order, f.View())
    modifies prev.Objects()
    ensures ok <==> MergeFilter(old(prev.View()), old(f.View())) != NotMergeable
    ensures !ok ==> prev.View() == old(prev.View())
    ensures merged.Some? <==> MergeFilter(old(prev.View()), old(f.View())).Merged?
    ensures merged.Some? ==>
      merged == Some(prev) && MergeFilter(old(prev.View()), old(f.View())) == Merged(prev.View())
  {
    hide GoEqual;
    match (prev, f)
    case (IdsRef(a), IdsRef(b)) =>
      var both := Intersect(a.nodeIds, b.nodeIds, order.ids);
      if both == {} {
        return true, None;
      }
      a.nodeIds := both;
      return true, Some(prev);
    case (AttributesRef(a), AttributesRef(b)) =>
      var same := MergeAttributes(a, b.attributes, order.names);
      return true, if same then Some(prev) else None;
    case (TypeRef(a), TypeRef(b)) =>
      return true, if a == b then Some(prev) else None;
    case _ =>
      return false, None;
  }

  method ApplyPredicate(nodes: seq<Node>, test: Node -> bool) returns (res: seq<Node>)
    ensures res == Select(test, nodes)
  {
    res := [];
    for i := 0 to |nodes|
      invariant Select(test, nodes) == res + Select(test, nodes[i..])
    {
      assert nodes[i..][0] == nodes[i] && nodes[i..][1..] == nodes[i + 1..];
      if test(nodes[i]) {
        res := res + [nodes[i]];
      }
    }
  }

  method ApplyFilter(f: FilterRef, nodes: seq<Node>) returns (r: Result<seq<Node>>)
    ensures r == Apply(f.View(), nodes)
  {
    var view := f.View();
    if view.Basic? {
      r := view.choose(nodes);
    } else {
      var picked := ApplyPredicate(nodes, n => Test(view, n));
      r := Ok(picked);
    }
  }

  ghost function Views(fs: seq<FilterRef>): (vs: seq<Filter>)
    reads set f, o | f in fs && o in f.Objects() :: o
    ensures |vs| == |fs| && forall i :: 0 <= i < |fs| ==> vs[i] == fs[i].View()
  {
    if fs == [] then [] else [fs[0].View()] + Views(fs[1..])
  }

  // No two filters share an object.
  predicate Separate(fs: seq<FilterRef>) {
    forall i, k :: 0 <= i < k < |fs| ==> fs[i].Objects() !! fs[k].Objects()
  }

  lemma ApplyStep(fs: seq<Filter>, i: nat, nodes: seq<Node>)
    requires i < |fs| && nodes != []
    ensures ApplyAll(fs[i..], nodes) ==
      match Apply(fs[i], nodes) case Err(e) => Err(e) case Ok(rest) => ApplyAll(fs[i + 1..], rest)
  {
    hide Apply;
    assert fs[i..][0] == fs[i] && fs[i..][1..] == fs[i + 1..];
  }

  lemma ApplyAllEnds(fs: seq<Filter>, nodes: seq<Node>)
    ensures fs == [] || nodes == [] ==> ApplyAll(fs, nodes) == Ok(nodes)
  {
  }

  class Projection {
    var filters: seq<FilterRef>

    constructor (filters: seq<FilterRef>)
      ensures this.filters == filters
    {
      this.filters := filters;
    }

    ghost function Objects(): set<object>
      reads this
    {
      set f, o | f in filters && o in f.Objects() :: o
    }

    ghost predicate Valid()
      reads this
    {
      Separate(filters)
    }

    ghost function View(): seq<Filter>
      reads this, Objects()
    {
      Views(filters)
    }

    // projection.apply
    method Apply(nodes: seq<Node>) returns (r: Result<seq<Node>>)
      ensures r == ApplyAll(View(), nodes)
    {
      hide Test, Filters.Apply, ApplyAll, Views;
      ghost var views := View();
      ApplyAllEnds(views, nodes);
      if nodes == [] {
        return Ok(nodes);
      }
      var rest := nodes;
      assert views[0..] == views;
      for i := 0 to |filters|
        invariant rest != []
        invariant ApplyAll(views, nodes) == ApplyAll(views[i..], rest)
      {
        ApplyStep(views, i, rest);
        var applied := ApplyFilter(filters[i], rest);
        assert View() == views;
        match applied
        case Err(e) => return Err(e);
        case Ok(picked) =>
          rest := picked;
          ApplyAllEnds(views[i + 1..], rest);
          if rest == [] {
            return Ok(rest);
          }
      }
      assert views[|filters|..] == [];
      ApplyAllEnds(views[|filters|..], rest);
      assert View() == views;
      r := Ok(rest);
    }
  }

  method IsExcludedByFilters(proj: Projection, nodeId: Uuid) returns (excluded: bool)
    ensures excluded <==> IsExcluded(proj.View(), nodeId)
    ensures excluded <==> exists ids: set<Uuid> :: proj.View() == [NodeIds(ids)] && nodeId !in ids
  {
    ghost var view := proj.View();
    if |proj.filters| == 1 && proj.filters[0].IdsRef? {
      assert view == [NodeIds(proj.filters[0].ids.nodeIds)];
      return nodeId !in proj.filters[0].ids.nodeIds;
    }
    excluded := false;
  }

  // A projection is the shared empty one or the chain of its filters.
  ghost function Meaning(empty: Projection, p: Projection): Filters.Projection
    reads p, p.Objects()
  {
    if p == empty then Filters.Empty else Filters.Chain(p.View())
  }

  function ObjectsOf(filter: Option<FilterRef>): set<object> {
    if filter.Some? then filter.value.Objects() else {}
  }

  ghost function ViewOf(filter: Option<FilterRef>): Option<Filter>
    reads ObjectsOf(filter)
  {
    if filter.Some? then Some(filter.value.View()) else None
  }

  ghost predicate InRange(order: MergeOrder, filter: Option<Filter>) {
    filter.Some? ==> Ranges(order, filter.value)
  }

  // A filter of its own, with the orders in which it may be ranged over.
  ghost predicate Separated(proj: Projection, filter: Option<FilterRef>, order: MergeOrder)
    reads proj, ObjectsOf(filter)
  {
    InRange(order, ViewOf(filter)) && ObjectsOf(filter) !! proj.Objects()
  }

  // Merging into one filter of a projection leaves the others as they are.
  method MergeAt(proj: Projection, i: nat, f: FilterRef, order: MergeOrder)
    returns (ok: bool, merged: Option<FilterRef>)
    requires proj.Valid() && i < |proj.filters| && Separated(proj, Some(f), order)
    modifies proj.filters[i].Objects()
    ensures unchanged(proj) && f.View() == old(f.View())
    ensures ok <==> MergeFilter(old(proj.View())[i], f.View()) != NotMergeable
    ensures !ok ==> proj.View() == old(proj.View())
    ensures merged.Some? <==> MergeFilter(old(proj.View())[i], f.View()).Merged?
    ensures merged.Some? ==>
      merged.value == proj.filters[i] &&
      proj.View() == old(proj.View())[i := MergeFilter(old(proj.View())[i], f.View()).filter]
  {
    hide MergeFilter;
    ghost var views := proj.View();
    var prev := proj.filters[i];
    assert views[i] == prev.View();
    ok, merged := MergeInto(prev, f, order);
    forall k | 0 <= k < |views| && k != i ensures proj.filters[k].View() == views[k] {
      assert proj.filters[k].Objects() !! prev.Objects();
    }
  }

  lemma MergeIndexStep(fs: seq<Filter>, i: nat, f: Filter)
    requires i < |fs|
    ensures MergeIndex(fs[..i + 1], f) ==
      if !IsReorderingAllowed(fs[i]) then -1
      else if MergeFilter(fs[i], f) != NotMergeable then i
      else MergeIndex(fs[..i], f)
  {
    hide MergeFilter;
    assert fs[..i + 1][..i] == fs[..i];
  }

  // The backward loop of appendFilter: where the filter was merged, and into what.
  method MergeBackwards(proj: Projection, f: FilterRef, order: MergeOrder)
    returns (at: int, merged: Option<FilterRef>)
    requires proj.Valid() && Separated(proj, Some(f), order)
    modifies proj.Objects()
    ensures unchanged(proj) && f.View() == old(f.View())
    ensures at == MergeIndex(old(proj.View()), f.View())
    ensures at == -1 ==> proj.View() == old(proj.View())
    ensures at >= 0 ==> var m := MergeFilter(old(proj.View())[at], f.View());
      && (merged.Some? <==> m.Merged?)
      && (merged.Some? ==> merged.value == proj.filters[at] && proj.View() == old(proj.View())[at := m.filter])
  {
    hide MergeFilter, MergeIndex, Views;
    ghost var views, view := proj.View(), f.View();
    at := |proj.filters| - 1;
    assert views[..at + 1] == views;
    while at >= 0
      invariant -1 <= at < |proj.filters|
      invariant unchanged(proj) && proj.View() == views && f.View() == view
      invariant MergeIndex(views, view) == MergeIndex(views[..at + 1], view)
    {
      MergeIndexStep(views, at, view);
      assert views[at] == proj.filters[at].View();
      if proj.filters[at].BasicRef? {
        return -1, None;
      }
      var ok;
      ok, merged := MergeAt(proj, at, f, order);
      if ok {
        return;
      }
      at := at - 1;
    }
    merged := None;
  }

  method AppendFilter(empty: Projection, proj: Projection, filter: Option<FilterRef>, order: MergeOrder)
    returns (r: Projection)
    requires proj == empty || (proj.Valid() && Separated(proj, filter, order))
    modifies if proj == empty then {} else {proj} + proj.Objects()
    ensures r == empty || r == proj
    ensures Meaning(empty, r) == Append(old(Meaning(empty, proj)), old(ViewOf(filter)))
    ensures r != empty ==> r.Valid()
    ensures r != empty ==> r.Objects() <= old(proj.Objects()) + ObjectsOf(filter)
    ensures unchanged(empty)
  {
    hide MergeFilter, MergeIndex, Views;
    if proj == empty || filter.None? {
      return empty;
    }
    var f := filter.value;
    if !f.BasicRef? {
      var at, merged := MergeBackwards(proj, f, order);
      if at >= 0 {
        if merged.None? {
          return empty;
        }
        proj.filters := proj.filters[at := merged.value];
        return proj;
      }
    }
    proj.filters := proj.filters + [f];
    r := proj;
  }

  // --------------------------------------------------------------- the group

  ghost function AllObjects(filters: seq<Option<FilterRef>>): set<object> {
    set f, o | f in filters && o in ObjectsOf(f) :: o
  }

  ghost function AllViews(filters: seq<Option<FilterRef>>): (vs: seq<Option<Filter>>)
    reads AllObjects(filters)
    ensures |vs| == |filters| && forall i :: 0 <= i < |filters| ==> vs[i] == ViewOf(filters[i])
  {
    if filters == [] then [] else [ViewOf(filters[0])] + AllViews(filters[1..])
  }

  // Every option of a cluster group makes a filter object of its own.
  predicate AllSeparate(filters: seq<Option<FilterRef>>) {
    forall i, k :: 0 <= i < k < |filters| ==> ObjectsOf(filters[i]) !! ObjectsOf(filters[k])
  }

  lemma DisjointFromEarlier(filters: seq<Option<FilterRef>>, i: nat)
    requires i < |filters| && AllSeparate(filters)
    ensures forall k :: i <= k < |filters| ==> ObjectsOf(filters[k]) !! AllObjects(filters[..i])
    ensures AllObjects(filters[..i + 1]) == AllObjects(filters[..i]) + ObjectsOf(filters[i])
    ensures AllObjects(filters[..i + 1]) <= AllObjects(filters)
    ensures forall k :: 0 <= k < |filters| ==> ObjectsOf(filters[k]) <= AllObjects(filters)
  {
    assert filters[..i + 1] == filters[..i] + [filters[i]];
  }

  ghost predicate AllRange(orders: seq<MergeOrder>, views: seq<Option<Filter>>) {
    |orders| == |views| && forall i :: 0 <= i < |views| ==> InRange(orders[i], views[i])
  }

  lemma NoFilter(p: Projection, filters: seq<Option<FilterRef>>)
    ensures p !in AllObjects(filters)
  {
    forall f | f in filters ensures p !in ObjectsOf(f) {
      match f
      case Some(IdsRef(o)) => assert p as object != o as object;
      case Some(AttributesRef(o)) => assert p as object != o as object;
      case _ =>
    }
  }

  // One option: the filters still to come stay as they are.
  method AddProjectionFilter(empty: Projection, p: Projection, filters: seq<Option<FilterRef>>, i: nat, order: MergeOrder)
    returns (r: Projection)
    requires i < |filters| && AllSeparate(filters) && InRange(order, ViewOf(filters[i]))
    requires p == empty || (p.Valid() && p.Objects() <= AllObjects(filters[..i]))
    modifies if p == empty then {} else {p} + p.Objects()
    ensures r == empty || (r == p && r.Valid() && r.Objects() <= AllObjects(filters[..i + 1]))
    ensures Meaning(empty, r) == Append(old(Meaning(empty, p)), old(ViewOf(filters[i])))
    ensures forall k :: i < k < |filters| ==> ViewOf(filters[k]) == old(ViewOf(filters[k]))
    ensures unchanged(empty)
  {
    hide Append, Views, AllObjects, AllSeparate, InRange, AllViews;
    DisjointFromEarlier(filters, i);
    NoFilter(p, filters);
    r := AppendFilter(empty, p, filters[i], order);
  }

  method GetClusterGroup(empty: Projection, filters: seq<Option<FilterRef>>, orders: seq<MergeOrder>)
    returns (p: Projection)
    requires AllSeparate(filters) && AllRange(orders, AllViews(filters))
    modifies AllObjects(filters)
    ensures Meaning(empty, p) == Build(old(AllViews(filters)))
    ensures p == empty || fresh(p)
    ensures unchanged(empty)
  {
    hide Append, Views, AllObjects, AllSeparate, InRange, AllViews;
    ghost var views := AllViews(filters);
    p := new Projection([]);
    assert views[..0] == [];
    for i := 0 to |filters|
      invariant p == empty || (fresh(p) && p.Valid() && p.Objects() <= AllObjects(filters[..i]))
      invariant Meaning(empty, p) == Build(views[..i])
      invariant forall k :: i <= k < |filters| ==> ViewOf(filters[k]) == views[k]
      invariant unchanged(empty)
    {
      assert views[..i + 1][..i] == views[..i];
      DisjointFromEarlier(filters, i);
      assert InRange(orders[i], views[i]);
      p := AddProjectionFilter(empty, p, filters, i, orders[i]);
    }
    assert views[..|filters|] == views;
  }
}
