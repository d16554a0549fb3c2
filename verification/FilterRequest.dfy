// Writing the server side filters of a projection to a request (cluster.go).
module FilterRequest {
  import opened Bytes
  import opened Streams
  import opened Values
  import opened Codec
  import opened Marshaller
  import opened Filters
  import opened PushDown
  import opened FilterRecords
  import opened ClusterProjection

  lemma AttributeBytes(name: Name, value: Value)
    ensures EncodeCondition(AttributeIs(name, value)) ==
      LE(2, ATTRIBUTE_FILTER_TYPE) + (LE(1, STRING_CODE) + EncodeString(name) + Encode(value))
  {
  }

  method WriteAttribute(out: OutputStream, name: Name, value: Value)
    requires WellFormed(value) && out.position + |EncodeCondition(AttributeIs(name, value))| <= MAX_INT32
    modifies out
    ensures Wrote(out, old(out.buffer), old(out.position), EncodeCondition(AttributeIs(name, value)))
  {
    hide Overwrite, Encode, EncodeCondition, WellFormed, EncodeString, LE, Grow;
    AttributeBytes(name, value);
    ghost var code, text := LE(2, ATTRIBUTE_FILTER_TYPE), LE(1, STRING_CODE) + EncodeString(name);
    OverwriteThrice(out.buffer, out.position, code, text, Encode(value));
    out.WriteInt16(ATTRIBUTE_FILTER_TYPE);
    MarshalString(out, name);
    Marshal(out, value);
  }

  method WriteNodeType(out: OutputStream, isForClients: bool)
    requires out.position + 3 <= MAX_INT32
    modifies out
    ensures Wrote(out, old(out.buffer), old(out.position), EncodeCondition(IsServer(!isForClients)))
  {
    hide Overwrite;
    ghost var flag := LE(1, if !isForClients then 1 else 0);
    OverwriteTwice(out.buffer, out.position, LE(2, NODE_TYPE_FILTER_TYPE), flag);
    out.WriteInt16(NODE_TYPE_FILTER_TYPE);
    out.WriteInt8(if !isForClients then 1 else 0);
  }

  lemma EncodeConditionsStep(cs: seq<Condition>, i: nat)
    requires i < |cs|
    ensures EncodeConditions(cs[..i + 1]) == EncodeConditions(cs[..i]) + EncodeCondition(cs[i])
    ensures |EncodeConditions(cs[..i + 1])| <= |EncodeConditions(cs)|
  {
    hide EncodeCondition;
    assert cs[..i + 1] == cs[..i] + [cs[i]];
    EncodeConditionsConcat(cs[..i], [cs[i]]);
    assert [cs[i]][1..] == [];
    assert cs == cs[..i + 1] + cs[i + 1..];
    EncodeConditionsConcat(cs[..i + 1], cs[i + 1..]);
  }

  // The records of nodeAttributesFilter.write, one for each attribute.
  method WriteAttributes(out: OutputStream, attributes: map<Name, Value>, order: seq<Name>)
    requires (forall name :: name in order ==> name in attributes) && Writable(AttributeRecords(attributes, order))
    requires out.position <= |out.buffer|
    requires out.position + |EncodeConditions(AttributeRecords(attributes, order))| <= MAX_INT32
    modifies out
    ensures Wrote(out, old(out.buffer), old(out.position), EncodeConditions(AttributeRecords(attributes, order)))
  {
    hide Overwrite, EncodeCondition, EncodeConditions, WellFormed, LE, AttributeRecords, Grow;
    ghost var buf, pos, cs := out.buffer, out.position, AttributeRecords(attributes, order);
    NothingEncoded();
    OverwriteNothing(buf, pos);
    for i := 0 to |order|
      invariant Wrote(out, buf, pos, EncodeConditions(cs[..i]))
    {
      EncodeConditionsStep(cs, i);
      OverwriteTwice(buf, pos, EncodeConditions(cs[..i]), EncodeCondition(cs[i]));
      WriteAttribute(out, order[i], attributes[order[i]]);
    }
    assert cs[..|order|] == cs;
  }

  // serverSideNodeFilter.write
  method WriteFilter(out: OutputStream, f: FilterRef, order: seq<Name>)
    requires IsServerSide(f.View()) && IsOrder(f.View(), order)
    requires Writable(RecordsOf(f.View(), order)) && out.position <= |out.buffer|
    requires out.position + |EncodeConditions(RecordsOf(f.View(), order))| <= MAX_INT32
    modifies out
    ensures Wrote(out, old(out.buffer), old(out.position), EncodeConditions(RecordsOf(f.View(), order)))
    ensures FilterRead(out.buffer, old(out.position), f.View(), order, out.position)
  {
    hide Overwrite, EncodeCondition, EncodeConditions, RecordsOf, AttributeRecords, Writable, FilterRead;
    ghost var buf, pos, data := out.buffer, out.position, EncodeConditions(RecordsOf(f.View(), order));
    FilterWritten(f.View(), order, buf, pos, Overwrite(buf, pos, data));
    match f
    case AttributesRef(a) =>
      AttributesRecords(a.attributes, order);
      WriteAttributes(out, a.attributes, order);
    case TypeRef(isForClients) =>
      NodeTypeRecords(isForClients, order);
      WriteNodeType(out, isForClients);
  }

  lemma AttributesRecords(attributes: map<Name, Value>, order: seq<Name>)
    requires forall name :: name in order ==> name in attributes
    ensures RecordsOf(Attributes(attributes), order) == AttributeRecords(attributes, order)
  {
  }

  lemma NodeTypeRecords(isForClients: bool, order: seq<Name>)
    ensures var c := IsServer(!isForClients);
      EncodeConditions(RecordsOf(NodeType(isForClients), order)) == EncodeCondition(c) && |EncodeCondition(c)| == 3
  {
    hide EncodeCondition;
    var c := IsServer(!isForClients);
    assert [c][1..] == [];
    NodeTypeLength(!isForClients);
  }

  lemma RecordsStep(fs: seq<Filter>, orders: seq<seq<Name>>, i: nat)
    requires i < |fs| && AreOrders(fs, orders)
    ensures AreOrders(fs[i..], orders[i..]) && AreOrders(fs[i + 1..], orders[i + 1..]) && IsOrder(fs[i], orders[i])
    ensures !IsReorderingAllowed(fs[i]) ==> Records(fs[i..], orders[i..]) == [] && Count(fs[i..]) == 0
    ensures IsReorderingAllowed(fs[i]) ==>
      && Records(fs[i..], orders[i..]) == RecordsOf(fs[i], orders[i]) + Records(fs[i + 1..], orders[i + 1..])
      && Count(fs[i..]) == (if IsServerSide(fs[i]) then 1 else 0) + Count(fs[i + 1..])
      && (!IsServerSide(fs[i]) ==> RecordsOf(fs[i], orders[i]) == [])
  {
    hide IsOrder;
    var rest, left := fs[i..], orders[i..];
    forall k | 0 <= k < |rest| ensures IsOrder(rest[k], left[k]) {
      assert IsOrder(fs[i + k], orders[i + k]);
    }
    OrdersTail(rest, left);
    assert rest[1..] == fs[i + 1..] && left[1..] == orders[i + 1..];
  }

  // The records of one filter fit where all of them do.
  lemma PartFits(all: seq<Condition>, done: seq<Condition>, cs: seq<Condition>, rest: seq<Condition>)
    requires all == done + (cs + rest)
    ensures |EncodeConditions(done)| + |EncodeConditions(cs)| <= |EncodeConditions(all)|
    ensures EncodeConditions(done + cs) == EncodeConditions(done) + EncodeConditions(cs)
    ensures Writable(all) ==> Writable(cs)
  {
    hide EncodeConditions, WellFormed;
    EncodeConditionsConcat(done, cs);
    EncodeConditionsConcat(done + cs, rest);
    assert all == done + cs + rest;
    assert forall k :: 0 <= k < |cs| ==> cs[k] == all[|done| + k];
  }

  lemma RecordsEnd(fs: seq<Filter>, orders: seq<seq<Name>>)
    requires AreOrders(fs, orders)
    ensures fs == fs[0..] && orders == orders[0..]
    ensures AreOrders(fs[|fs|..], orders[|fs|..])
    ensures Records(fs[|fs|..], orders[|fs|..]) == [] && Count(fs[|fs|..]) == 0
  {
  }

  lemma StreamIsNoFilter(out: OutputStream, proj: ClusterProjection.Projection)
    ensures out !in proj.Objects()
  {
    forall f | f in proj.filters ensures out !in f.Objects() {
      match f
      case IdsRef(o) => assert out as object != o as object;
      case AttributesRef(o) => assert out as object != o as object;
      case _ =>
    }
  }

  // The records up to the first filter that must keep its place.
  method WriteRecords(proj: ClusterProjection.Projection, out: OutputStream, orders: seq<seq<Name>>)
    returns (filtersCnt: nat)
    requires AreOrders(proj.View(), orders) && Writable(Records(proj.View(), orders))
    requires out.position <= |out.buffer|
    requires out.position + |EncodeConditions(Records(proj.View(), orders))| <= MAX_INT32
    modifies out
    ensures filtersCnt == Count(proj.View())
    ensures Wrote(out, old(out.buffer), old(out.position), EncodeConditions(Records(proj.View(), orders)))
  {
    hide Overwrite, Grow, LE, Records, Count, EncodeConditions, Writable, RecordsOf, Views;
    ghost var fs := proj.View();
    StreamIsNoFilter(out, proj);
    ghost var all, done, buf, pos := Records(fs, orders), [], out.buffer, out.position;
    filtersCnt := 0;
    NothingEncoded();
    OverwriteNothing(buf, pos);
    RecordsEnd(fs, orders);
    for i := 0 to |proj.filters|
      invariant AreOrders(fs[i..], orders[i..]) && all == done + Records(fs[i..], orders[i..])
      invariant Count(fs) == filtersCnt + Count(fs[i..])
      invariant Wrote(out, buf, pos, EncodeConditions(done)) && proj.View() == fs
    {
      RecordsStep(fs, orders, i);
      var filter := proj.filters[i];
      if !IsReorderingAllowed(filter.View()) {
        assert all == done;
        return;
      }
      ghost var cs := RecordsOf(fs[i], orders[i]);
      assert done + [] == done;
      PartFits(all, done, cs, Records(fs[i + 1..], orders[i + 1..]));
      if IsServerSide(filter.View()) {
        OverwriteTwice(buf, pos, EncodeConditions(done), EncodeConditions(cs));
        WriteFilter(out, filter, orders[i]);
        filtersCnt := filtersCnt + 1;
      }
      done := done + cs;
    }
    assert all == done;
  }

  method SkipCount(out: OutputStream)
    requires out.position + 4 <= MAX_INT32
    modifies out
    ensures out.buffer == Grow(old(out.buffer), old(out.position) + 4) && out.position == old(out.position) + 4
  {
    out.EnsureAvailable(4);
    out.SetPosition(out.position + 4);
  }

  // Going back to write the count.
  method PatchCount(out: OutputStream, startPos: nat, filtersCnt: nat)
    requires startPos + 4 <= MAX_INT32
    modifies out
    ensures out.buffer == Overwrite(old(out.buffer), startPos, LE(4, filtersCnt)) && out.position == old(out.position)
  {
    hide Overwrite;
    var retPos := out.position;
    out.SetPosition(startPos);
    out.WriteInt32(filtersCnt);
    out.SetPosition(retPos);
  }

  lemma RequestRead(fs: seq<Filter>, orders: seq<seq<Name>>, buf: seq<byte>, pos: nat)
    requires AreOrders(fs, orders) && Writable(Records(fs, orders)) && |EncodeConditions(Records(fs, orders))| <= MAX_INT32
    requires At(buf, pos, LE(4, Count(fs)) + EncodeConditions(Records(fs, orders)))
    ensures pos + 4 <= |buf| && UIntAt(buf, pos, 4) == Count(fs) % 0x1_0000_0000
    ensures FiltersRead(buf, pos + 4, fs, orders, pos + 4 + |EncodeConditions(Records(fs, orders))|)
  {
    hide Records, Count, EncodeConditions, Writable, AreOrders, FiltersRead;
    AtSplit(buf, pos, LE(4, Count(fs)), EncodeConditions(Records(fs, orders)));
    Widths();
    FromLEOfLE(4, Count(fs));
    hide At;
    AllRecordsRead(fs, orders, buf, pos + 4);
  }

  // Room for the count, the records, and then the count.
  method WriteServerSideFilters(proj: ClusterProjection.Projection, out: OutputStream, orders: seq<seq<Name>>)
    requires AreOrders(proj.View(), orders) && Writable(Records(proj.View(), orders))
    requires out.position + 4 + |EncodeConditions(Records(proj.View(), orders))| <= MAX_INT32
    modifies out
    ensures Wrote(out, old(out.buffer), old(out.position),
                  LE(4, Count(proj.View())) + EncodeConditions(Records(proj.View(), orders)))
    ensures var start := old(out.position);
      && start + 4 <= |out.buffer| && UIntAt(out.buffer, start, 4) == Count(proj.View()) % 0x1_0000_0000
      && FiltersRead(out.buffer, start + 4, proj.View(), orders, out.position)
  {
    hide Overwrite, Grow, LE, Records, Count, EncodeConditions, Writable, AreOrders, Views, FiltersRead, UIntAt;
    StreamIsNoFilter(out, proj);
    ghost var fs := proj.View();
    ghost var data, buf := EncodeConditions(Records(fs, orders)), out.buffer;
    var startPos := out.position;
    SkipCount(out);
    assert proj.View() == fs;
    var filtersCnt := WriteRecords(proj, out, orders);
    OverwriteBefore(buf, startPos, LE(4, filtersCnt), data);
    assert proj.View() == fs;
    PatchCount(out, startPos, filtersCnt);
    assert proj.View() == fs;
    RequestRead(fs, orders, out.buffer, startPos);
  }
}
