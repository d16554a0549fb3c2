// Cluster group filters and their projection (cluster.go), as values.
module Filters {
  import opened Wrappers
  import opened Bytes
  import opened Values

  type Name = seq<byte>

  // The parts of a cluster node that filters look at.
  datatype Node = Node(id: Uuid, isClient: bool, order: int64, attributes: map<Name, Value>)

  // Equality of attribute values as Go's `==` has it: a NaN equals nothing and both zeros are equal.
  function Canonical(v: Value): Option<Value> {
    if v.Scalar? && v.prim.PFloat? then CanonicalFloat(v, 0x8000_0000, 0x7F80_0000)
    else if v.Scalar? && v.prim.PDouble? then CanonicalFloat(v, 0x8000_0000_0000_0000, 0x7FF0_0000_0000_0000)
    else Some(v)
  }

  // `sign` is the sign bit and `infinity` the largest bit pattern that is no NaN.
  function CanonicalFloat(v: Value, sign: int, infinity: int): Option<Value>
    requires v.Scalar?
  {
    if (v.v > infinity && v.v < sign) || v.v > sign + infinity then None
    else if v.v == sign then Some(Scalar(v.prim, 0))
    else Some(v)
  }

  predicate GoEqual(a: Value, b: Value) {
    Canonical(a).Some? && Canonical(a) == Canonical(b)
  }

  // Client side filters without reordering may fail, for they can ask the server.
  datatype Filter =
    | NodeIds(ids: set<Uuid>)
    | Attributes(attributes: map<Name, Value>)
    | NodeType(isForClients: bool)
    | Predicate(accepts: Node -> bool)
    | Basic(choose: seq<Node> -> Result<seq<Node>>)

  predicate IsReorderingAllowed(f: Filter) {
    !f.Basic?
  }

  // The test of a reorderable filter on one node.
  predicate Test(f: Filter, n: Node)
    requires IsReorderingAllowed(f)
  {
    match f
    case NodeIds(ids) => n.id in ids
    case Attributes(attributes) =>
      forall name :: name in attributes ==> name in n.attributes && GoEqual(attributes[name], n.attributes[name])
    case NodeType(isForClients) => n.isClient == isForClients
    case Predicate(accepts) => accepts(n)
  }

  // applyPredicate
  function Select(test: Node -> bool, nodes: seq<Node>): seq<Node> {
    if nodes == [] then []
    else if test(nodes[0]) then [nodes[0]] + Select(test, nodes[1..])
    else Select(test, nodes[1..])
  }

  function Apply(f: Filter, nodes: seq<Node>): Result<seq<Node>> {
    if f.Basic? then f.choose(nodes) else Ok(Select(n => Test(f, n), nodes))
  }

  // projection.apply: stops early when no node is left.
  function ApplyAll(fs: seq<Filter>, nodes: seq<Node>): Result<seq<Node>>
    decreases |fs|
  {
    if nodes == [] || fs == [] then Ok(nodes)
    else
      match Apply(fs[0], nodes)
      case Err(e) => Err(e)
      case Ok(rest) => ApplyAll(fs[1..], rest)
  }

  // ------------------------------------------------------------------ merging

  datatype Merge = NotMergeable | Contradiction | Merged(filter: Filter)

  function MergeFilter(prev: Filter, f: Filter): Merge {
    match (prev, f)
    case (NodeIds(a), NodeIds(b)) => if a * b == {} then Contradiction else Merged(NodeIds(a * b))
    case (NodeType(a), NodeType(b)) => if a == b then Merged(prev) else Contradiction
    case (Attributes(a), Attributes(b)) =>
      if forall name :: name in a && name in b ==> GoEqual(a[name], b[name]) then Merged(Attributes(a + b))
      else Contradiction
    case _ => NotMergeable
  }

  // The shared empty projection is a value of its own: it is recognised by identity.
  datatype Projection = Empty | Chain(filters: seq<Filter>)

  // The last filter that takes `f` in, searching backwards until a filter that must keep its
  // place; -1 if there is none.
  function MergeIndex(fs: seq<Filter>, f: Filter): (i: int)
    ensures -1 <= i < |fs|
    ensures i >= 0 ==> MergeFilter(fs[i], f) != NotMergeable
    ensures i >= 0 ==> forall k :: i <= k < |fs| ==> IsReorderingAllowed(fs[k])
  {
    if fs == [] || !IsReorderingAllowed(fs[|fs| - 1]) then -1
    else if MergeFilter(fs[|fs| - 1], f) != NotMergeable then |fs| - 1
    else MergeIndex(fs[..|fs| - 1], f)
  }

  // appendFilter.  None is the filter that accepts no node.
  function Append(p: Projection, filter: Option<Filter>): Projection {
    if p.Empty? || filter.None? then Empty
    else
      var fs, f := p.filters, filter.value;
      var i := if IsReorderingAllowed(f) then MergeIndex(fs, f) else -1;
      if i == -1 then Chain(fs + [f])
      else
        match MergeFilter(fs[i], f)
        case Merged(merged) => Chain(fs[i := merged])
        case _ => Empty
  }

  function ApplyProjection(p: Projection, nodes: seq<Node>): Result<seq<Node>> {
    if p.Empty? then Ok([]) else ApplyAll(p.filters, nodes)
  }

  // The projection of a cluster group built with these filters.
  function Build(filters: seq<Option<Filter>>): Projection {
    if filters == [] then Chain([])
    else Append(Build(filters[..|filters| - 1]), filters[|filters| - 1])
  }

  // --------------------------------------------------------------- the meaning

  // Applying the filters one after another.
  function InOrder(filters: seq<Option<Filter>>, nodes: seq<Node>): Result<seq<Node>>
    decreases |filters|
  {
    if filters == [] then Ok(nodes)
    else
      match InOrder(filters[..|filters| - 1], nodes)
      case Err(e) => Err(e)
      case Ok(rest) =>
        var last := filters[|filters| - 1];
        if last.None? then Ok([]) else Apply(last.value, rest)
  }

  // Filters pick from the nodes they are given: from none they pick none, unless they fail.
  predicate Picks(f: Filter) {
    f.Basic? ==> f.choose([]) == Ok([]) || f.choose([]).Err?
  }

  predicate AllPick(filters: seq<Option<Filter>>) {
    forall i :: 0 <= i < |filters| && filters[i].Some? ==> Picks(filters[i].value)
  }

  // Some filter fails while it is given nodes to filter.
  predicate FailsOnSome(filters: seq<Option<Filter>>, nodes: seq<Node>)
    decreases |filters|
  {
    filters != [] &&
    var init, last := filters[..|filters| - 1], filters[|filters| - 1];
    match InOrder(init, nodes)
    case Err(_) => FailsOnSome(init, nodes)
    case Ok(rest) => rest != [] && last.Some? && Apply(last.value, rest).Err?
  }

  // a is b, unless b failed and a is known to be empty.
  predicate Refines(a: Result<seq<Node>>, b: Result<seq<Node>>) {
    a == b || (a == Ok([]) && b.Err?)
  }

  // ------------------------------------------------------------- lists of nodes

  lemma {:induction false} SelectTwice(p: Node -> bool, q: Node -> bool, nodes: seq<Node>)
    ensures Select(q, Select(p, nodes)) == Select(n => p(n) && q(n), nodes)
  {
    if nodes != [] {
      SelectTwice(p, q, nodes[1..]);
      if p(nodes[0]) {
        assert ([nodes[0]] + Select(p, nodes[1..]))[1..] == Select(p, nodes[1..]);
      }
    }
  }

  lemma {:induction false} SelectSame(p: Node -> bool, q: Node -> bool, nodes: seq<Node>)
    requires forall n :: p(n) == q(n)
    ensures Select(p, nodes) == Select(q, nodes)
  {
    if nodes != [] {
      SelectSame(p, q, nodes[1..]);
    }
  }

  lemma {:induction false} SelectAll(p: Node -> bool, nodes: seq<Node>)
    requires forall n :: p(n)
    ensures Select(p, nodes) == nodes
  {
    if nodes != [] {
      SelectAll(p, nodes[1..]);
    }
  }

  lemma {:induction false} SelectNone(p: Node -> bool, nodes: seq<Node>)
    requires forall n :: n in nodes ==> !p(n)
    ensures Select(p, nodes) == []
  {
    if nodes != [] {
      assert forall n :: n in nodes[1..] ==> n in nodes;
      SelectNone(p, nodes[1..]);
    }
  }

  predicate AllReorderable(fs: seq<Filter>) {
    forall i :: 0 <= i < |fs| ==> IsReorderingAllowed(fs[i])
  }

  predicate PassesAll(fs: seq<Filter>, n: Node)
    requires AllReorderable(fs)
  {
    forall i :: 0 <= i < |fs| ==> Test(fs[i], n)
  }

  // Reorderable filters together are one selection, in whatever order they stand.
  lemma {:induction false} ApplyReorderable(fs: seq<Filter>, nodes: seq<Node>)
    requires AllReorderable(fs)
    ensures ApplyAll(fs, nodes) == Ok(Select(n => PassesAll(fs, n), nodes))
    decreases |fs|
  {
    if fs == [] {
      SelectAll(n => PassesAll(fs, n), nodes);
    } else if nodes != [] {
      var first, others := (n => Test(fs[0], n)), (n => PassesAll(fs[1..], n));
      ApplyReorderable(fs[1..], Select(first, nodes));
      SelectTwice(first, others, nodes);
      forall n ensures (first(n) && others(n)) == PassesAll(fs, n) {
        PassesAllCons(fs, n);
      }
      SelectSame(n => first(n) && others(n), n => PassesAll(fs, n), nodes);
    }
  }

  lemma PassesAllCons(fs: seq<Filter>, n: Node)
    requires fs != [] && AllReorderable(fs)
    ensures PassesAll(fs, n) <==> Test(fs[0], n) && PassesAll(fs[1..], n)
  {
    if Test(fs[0], n) && PassesAll(fs[1..], n) {
      forall i | 0 <= i < |fs| ensures Test(fs[i], n) {
        if i > 0 {
          assert Test(fs[1..][i - 1], n);
        }
      }
    }
    if PassesAll(fs, n) {
      forall i | 0 <= i < |fs[1..]| ensures Test(fs[1..][i], n) {
        assert Test(fs[i + 1], n);
      }
    }
  }

  lemma {:induction false} ApplyConcat(a: seq<Filter>, b: seq<Filter>, nodes: seq<Node>)
    ensures ApplyAll(a + b, nodes) ==
      match ApplyAll(a, nodes) case Err(e) => Err(e) case Ok(rest) => ApplyAll(b, rest)
    decreases |a|
  {
    if a == [] {
      assert a + b == b;
    } else if nodes != [] {
      assert (a + b)[1..] == a[1..] + b;
      match Apply(a[0], nodes)
      case Err(_) =>
      case Ok(rest) => ApplyConcat(a[1..], b, rest);
    }
  }

  // ------------------------------------------------------------------ appending

  // A merged filter accepts what both accept, and a contradiction is one.
  lemma MergeMeaning(prev: Filter, f: Filter, n: Node)
    requires IsReorderingAllowed(prev) && IsReorderingAllowed(f)
    ensures match MergeFilter(prev, f)
      case NotMergeable => true
      case Contradiction => !(Test(prev, n) && Test(f, n))
      case Merged(merged) => IsReorderingAllowed(merged) && (Test(merged, n) <==> Test(prev, n) && Test(f, n))
  {
    match (prev, f) {
      case (Attributes(a), Attributes(b)) => MergeAttributesMeaning(a, b, n);
      case (NodeIds(a), NodeIds(b)) => assert n.id in a * b <==> n.id in a && n.id in b;
      case _ =>
    }
  }

  lemma MergeAttributesMeaning(a: map<Name, Value>, b: map<Name, Value>, n: Node)
    ensures (forall name :: name in a && name in b ==> GoEqual(a[name], b[name])) ==>
      (Test(Attributes(a + b), n) <==> Test(Attributes(a), n) && Test(Attributes(b), n))
    ensures !(forall name :: name in a && name in b ==> GoEqual(a[name], b[name])) ==>
      !(Test(Attributes(a), n) && Test(Attributes(b), n))
  {
    hide Canonical;
    var m := a + b;
    if forall name :: name in a && name in b ==> GoEqual(a[name], b[name]) {
      if Test(Attributes(m), n) {
        forall name | name in a ensures name in n.attributes && GoEqual(a[name], n.attributes[name]) {
          assert name in m;
        }
        forall name | name in b ensures name in n.attributes && GoEqual(b[name], n.attributes[name]) {
          assert name in m;
        }
      }
    }
  }

  // One more filter on a result.
  function Then(r: Result<seq<Node>>, filter: Option<Filter>): Result<seq<Node>> {
    match r
    case Err(e) => Err(e)
    case Ok(rest) => if filter.None? then Ok([]) else ApplyAll([filter.value], rest)
  }

  // Putting a merged filter in an earlier place, past all the filters between, is adding the
  // filter at the end.
  lemma MergedInPlace(fs: seq<Filter>, i: nat, f: Filter, merged: Filter, nodes: seq<Node>)
    requires i < |fs| && AllReorderable(fs) && IsReorderingAllowed(f) && IsReorderingAllowed(merged)
    requires forall n :: Test(merged, n) <==> Test(fs[i], n) && Test(f, n)
    ensures ApplyAll(fs[i := merged], nodes) == Then(ApplyAll(fs, nodes), Some(f))
  {
    hide Test;
    var gs := fs[i := merged];
    ApplyReorderable(fs, nodes);
    ApplyReorderable(gs, nodes);
    var before, after := (n => PassesAll(fs, n)), (n => PassesAll(gs, n));
    var last := n => PassesAll([f], n);
    ApplyReorderable([f], Select(before, nodes));
    SelectTwice(before, last, nodes);
    forall n ensures (before(n) && last(n)) == after(n) {
      PassesMerged(fs, i, f, merged, n);
    }
    SelectSame(n => before(n) && last(n), after, nodes);
  }

  lemma PassesMerged(fs: seq<Filter>, i: nat, f: Filter, merged: Filter, n: Node)
    requires i < |fs| && AllReorderable(fs) && IsReorderingAllowed(f) && IsReorderingAllowed(merged)
    requires Test(merged, n) <==> Test(fs[i], n) && Test(f, n)
    ensures PassesAll(fs[i := merged], n) <==> PassesAll(fs, n) && PassesAll([f], n)
  {
    hide Test, IsReorderingAllowed;
    var gs := fs[i := merged];
    assert gs[i] == merged;
    if PassesAll(gs, n) {
      assert Test(gs[i], n);
      forall k | 0 <= k < |fs| ensures Test(fs[k], n) {
        assert Test(gs[k], n);
      }
    }
    if PassesAll(fs, n) && PassesAll([f], n) {
      assert Test(fs[i], n) && Test([f][0], n);
      forall k | 0 <= k < |gs| ensures Test(gs[k], n) {
        if k != i {
          assert Test(fs[k], n);
        }
      }
    }
  }

  // Filters that contradict each other leave nothing.
  lemma Contradicted(fs: seq<Filter>, i: nat, f: Filter, nodes: seq<Node>)
    requires i < |fs| && AllReorderable(fs) && IsReorderingAllowed(f)
    requires forall n :: !(Test(fs[i], n) && Test(f, n))
    ensures Then(ApplyAll(fs, nodes), Some(f)) == Ok([])
  {
    hide Test;
    ApplyReorderable(fs, nodes);
    var before, last := (n => PassesAll(fs, n)), (n => PassesAll([f], n));
    ApplyReorderable([f], Select(before, nodes));
    SelectTwice(before, last, nodes);
    forall n ensures !(before(n) && last(n)) {
      assert before(n) ==> Test(fs[i], n);
      assert last(n) ==> Test([f][0], n);
    }
    SelectNone(n => before(n) && last(n), nodes);
  }

  lemma ThenConcat(a: seq<Filter>, b: seq<Filter>, c: seq<Filter>, f: Filter, nodes: seq<Node>)
    requires forall rest :: ApplyAll(c, rest) == Then(ApplyAll(b, rest), Some(f))
    ensures ApplyAll(a + c, nodes) == Then(ApplyAll(a + b, nodes), Some(f))
  {
    ApplyConcat(a, b, nodes);
    ApplyConcat(a, c, nodes);
  }

  // Appending means filtering once more: exactly, unless the projection collapses to the empty
  // one, which also hides the failure of an earlier filter.
  lemma AppendMeaning(p: Projection, filter: Option<Filter>, nodes: seq<Node>)
    ensures var appended, after := Append(p, filter), Then(ApplyProjection(p, nodes), filter);
      && Refines(ApplyProjection(appended, nodes), after)
      && (appended.Chain? ==> ApplyProjection(appended, nodes) == after)
  {
    hide Test, MergeFilter, MergeIndex;
    if p.Empty? || filter.None? {
      return;
    }
    var fs, f := p.filters, filter.value;
    var i := if IsReorderingAllowed(f) then MergeIndex(fs, f) else -1;
    if i == -1 {
      ApplyConcat(fs, [f], nodes);
      return;
    }
    var a, b := fs[..i], fs[i..];
    assert fs == a + b;
    assert AllReorderable(b) by {
      assert forall k :: 0 <= k < |b| ==> b[k] == fs[i + k];
    }
    forall n {
      MergeMeaning(fs[i], f, n);
    }
    if MergeFilter(fs[i], f).Merged? {
      var merged := MergeFilter(fs[i], f).filter;
      assert fs[i := merged] == a + b[0 := merged];
      assert IsReorderingAllowed(merged) by {
        MergeMeaning(fs[i], f, Node(Zeros(16), false, 0, map[]));
      }
      forall rest ensures ApplyAll(b[0 := merged], rest) == Then(ApplyAll(b, rest), Some(f)) {
        MergedInPlace(b, 0, f, merged, rest);
      }
      ThenConcat(a, b, b[0 := merged], f, nodes);
    } else {
      ApplyConcat(a, b, nodes);
      if ApplyAll(a, nodes).Ok? {
        Contradicted(b, 0, f, ApplyAll(a, nodes).value);
      }
    }
  }

  lemma ThenApplies(r: Result<seq<Node>>, filter: Option<Filter>)
    ensures r.Ok? && filter.Some? ==>
      Then(r, filter) == if r.value == [] then Ok([]) else Apply(filter.value, r.value)
  {
    hide Apply;
    if r.Ok? && filter.Some? {
      var one := [filter.value];
      assert one[0] == filter.value && one[1..] == [];
      var applied := Apply(filter.value, r.value);
      assert applied.Ok? ==> ApplyAll(one[1..], applied.value) == applied;
    }
  }

  // The optimised projection means what its filters mean one after another.  It may only be more
  // forgiving: where it knows that no node is left, it does not run a filter that would fail.
  lemma {:induction false} BuildMeaning(filters: seq<Option<Filter>>, nodes: seq<Node>)
    requires AllPick(filters)
    ensures Refines(ApplyProjection(Build(filters), nodes), InOrder(filters, nodes))
    decreases |filters|
  {
    hide Test, Append, MergeFilter;
    if filters != [] {
      var init, last := filters[..|filters| - 1], filters[|filters| - 1];
      assert AllPick(init);
      BuildMeaning(init, nodes);
      AppendMeaning(Build(init), last, nodes);
      ThenApplies(ApplyProjection(Build(init), nodes), last);
    }
  }

  // Exactly when the two agree: a failure is reported if it comes of a filter that has nodes to
  // filter and the projection has not collapsed.  Otherwise it is swallowed.
  lemma {:induction false} BuildExact(filters: seq<Option<Filter>>, nodes: seq<Node>)
    requires AllPick(filters)
    ensures ApplyProjection(Build(filters), nodes) == InOrder(filters, nodes)
      <==> InOrder(filters, nodes).Ok? || (Build(filters).Chain? && FailsOnSome(filters, nodes))
    decreases |filters|
  {
    hide Test, Append, MergeFilter;
    BuildMeaning(filters, nodes);
    if filters != [] {
      var init, last := filters[..|filters| - 1], filters[|filters| - 1];
      assert AllPick(init);
      BuildExact(init, nodes);
      BuildMeaning(init, nodes);
      AppendMeaning(Build(init), last, nodes);
      ThenApplies(ApplyProjection(Build(init), nodes), last);
      if Build(filters).Chain? {
        CollapsedBefore(filters);
      }
    }
  }

  // A projection that has collapsed stays empty.
  lemma CollapsedBefore(filters: seq<Option<Filter>>)
    requires filters != [] && Build(filters).Chain?
    ensures Build(filters[..|filters| - 1]).Chain?
  {
  }

  // Without filters that must keep their place nothing can fail, and the two always agree.
  lemma {:induction false} BuildReorderable(filters: seq<Option<Filter>>, nodes: seq<Node>)
    requires forall i :: 0 <= i < |filters| && filters[i].Some? ==> IsReorderingAllowed(filters[i].value)
    ensures ApplyProjection(Build(filters), nodes) == InOrder(filters, nodes) && InOrder(filters, nodes).Ok?
    decreases |filters|
  {
    hide Test, Append, MergeFilter;
    BuildMeaning(filters, nodes);
    if filters != [] {
      BuildReorderable(filters[..|filters| - 1], nodes);
    }
  }

  // The error of a failing filter is lost once two later filters contradict each other.
  lemma CollapseHidesFailure(nodes: seq<Node>)
    ensures var failing := Some(Basic(_ => Err(FilterFailed)));
      var filters := [failing, Some(NodeType(true)), Some(NodeType(false))];
      ApplyProjection(Build(filters), nodes) == Ok([]) && InOrder(filters, nodes) == Err(FilterFailed)
  {
    hide ApplyAll;
    var failing := Some(Basic(_ => Err(FilterFailed)));
    var clients, servers: Option<Filter> := Some(NodeType(true)), Some(NodeType(false));
    var three, two, one := [failing, clients, servers], [failing, clients], [failing];
    assert three[..2] == two && two[..1] == one && one[..0] == [];
    assert Build(one) == Chain([failing.value]);
    assert [failing.value, clients.value][..1] == [failing.value];
    assert InOrder(one, nodes) == Err(FilterFailed);
  }

  // And so is the error of a filter that comes when no node is left.
  lemma EarlyEndHidesFailure(server: Node)
    requires !server.isClient
    ensures var filters := [Some(NodeType(true)), Some(Basic(_ => Err(FilterFailed)))];
      && Build(filters).Chain?
      && ApplyProjection(Build(filters), [server]) == Ok([]) && InOrder(filters, [server]) == Err(FilterFailed)
  {
    var clients, failing: Option<Filter> := Some(NodeType(true)), Some(Basic(_ => Err(FilterFailed)));
    assert [clients, failing][..1] == [clients] && [clients][..0] == [];
    assert Build([clients]) == Chain([clients.value]);
    assert Build([clients, failing]) == Chain([clients.value, failing.value]);
    var one := [clients.value];
    ApplyReorderable(one, [server]);
    assert !Test(one[0], server);
    SelectNone(n => PassesAll(one, n), [server]);
    ThenApplies(Ok([server]), clients);
    assert Apply(clients.value, [server]) == Ok([]);
    assert InOrder([clients], [server]) == Ok([]);
    assert InOrder([clients, failing], [server]) == Err(FilterFailed);
    ApplyConcat(one, [failing.value], [server]);
    assert one + [failing.value] == [clients.value, failing.value];
    assert ApplyAll([failing.value], []) == Ok([]);
  }

  // ------------------------------------------------------------------- segments

  predicate SameKind(a: Filter, b: Filter) {
    (a.NodeIds? && b.NodeIds?) || (a.Attributes? && b.Attributes?) || (a.NodeType? && b.NodeType?)
  }

  predicate ReorderableBetween(fs: seq<Filter>, i: nat, k: nat)
    requires k <= |fs|
  {
    forall j :: i <= j < k ==> IsReorderingAllowed(fs[j])
  }

  // Between filters that must keep their place there is at most one filter of a mergeable kind.
  predicate Reduced(fs: seq<Filter>) {
    forall i, k :: 0 <= i < k < |fs| && SameKind(fs[i], fs[k]) ==> !ReorderableBetween(fs, i, k + 1)
  }

  lemma {:induction false} NotFoundBefore(fs: seq<Filter>, f: Filter, i: nat)
    requires i < |fs| && ReorderableBetween(fs, i, |fs|) && MergeIndex(fs, f) == -1
    ensures !SameKind(fs[i], f)
    decreases |fs|
  {
    if i < |fs| - 1 {
      NotFoundBefore(fs[..|fs| - 1], f, i);
    }
  }

  lemma AppendKeepsReduced(p: Projection, filter: Option<Filter>)
    requires p.Chain? && Reduced(p.filters)
    ensures Append(p, filter).Chain? ==> Reduced(Append(p, filter).filters)
  {
    var appended := Append(p, filter);
    if appended.Empty? {
      return;
    }
    var fs, f, gs := p.filters, filter.value, appended.filters;
    forall i, k | 0 <= i < k < |gs| && SameKind(gs[i], gs[k]) ensures !ReorderableBetween(gs, i, k + 1) {
      var upTo := if k < |fs| then k + 1 else k;
      assert ReorderableBetween(gs, i, k + 1) ==> ReorderableBetween(fs, i, upTo) by {
        assert forall j :: i <= j < upTo && IsReorderingAllowed(gs[j]) ==> IsReorderingAllowed(fs[j]);
      }
      if k < |fs| {
        assert SameKind(fs[i], fs[k]);
      } else if ReorderableBetween(gs, i, k + 1) {
        assert IsReorderingAllowed(gs[k]);
        NotFoundBefore(fs, f, i);
      }
    }
  }

  lemma {:induction false} BuildReduced(filters: seq<Option<Filter>>)
    ensures Build(filters).Chain? ==> Reduced(Build(filters).filters)
    decreases |filters|
  {
    hide Append, Reduced;
    if filters == [] {
      assert Reduced([]) by { NothingReduced(); }
    } else {
      BuildReduced(filters[..|filters| - 1]);
      var p := Build(filters[..|filters| - 1]);
      if p.Chain? {
        AppendKeepsReduced(p, filters[|filters| - 1]);
      } else {
        EmptyStays(p, filters[|filters| - 1]);
      }
    }
  }

  lemma NothingReduced()
    ensures Reduced([])
  {
  }

  lemma EmptyStays(p: Projection, filter: Option<Filter>)
    requires p.Empty?
    ensures Append(p, filter).Empty?
  {
  }

  // ---------------------------------------------------------------- single filters

  // What the shared empty projection holds gives what Empty stands for.
  lemma EmptyProjectionMeaning(nodes: seq<Node>)
    ensures ApplyAll([Basic(_ => Ok([]))], nodes) == ApplyProjection(Empty, nodes)
  {
    var nothing: Filter := Basic(_ => Ok([]));
    assert [nothing][1..] == [];
  }

  predicate IsExcluded(fs: seq<Filter>, id: Uuid) {
    |fs| == 1 && fs[0].NodeIds? && id !in fs[0].ids
  }

  lemma {:induction false} SelectPasses(test: Node -> bool, nodes: seq<Node>)
    ensures forall n :: n in Select(test, nodes) <==> test(n) && n in nodes
  {
    if nodes != [] {
      SelectPasses(test, nodes[1..]);
      assert nodes == [nodes[0]] + nodes[1..];
    }
  }

  // A node is only left out without asking the server when the projection would drop it anyway.
  lemma ExcludedIsDropped(fs: seq<Filter>, id: Uuid, nodes: seq<Node>)
    requires IsExcluded(fs, id)
    ensures ApplyAll(fs, nodes).Ok? && forall n :: n in ApplyAll(fs, nodes).value ==> n.id != id
  {
    ApplyReorderable(fs, nodes);
    SelectPasses(n => PassesAll(fs, n), nodes);
    forall n | PassesAll(fs, n) ensures n.id != id {
      assert Test(fs[0], n);
    }
  }
}
