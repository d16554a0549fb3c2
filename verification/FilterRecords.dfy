// What a reader finds in the filters of a topology request (cluster.go): codes, names, values and flags.
module FilterRecords {
  import opened Wrappers
  import opened Bytes
  import opened Streams
  import opened Scalars
  import opened Values
  import opened Codec
  import opened RoundTrip
  import opened Filters
  import opened PushDown

  // Values that the marshaller takes.
  predicate Writable(cs: seq<Condition>) {
    forall i :: 0 <= i < |cs| && cs[i].AttributeIs? ==> WellFormed(cs[i].value)
  }

  // From pos to end stand the attributes in this order: each under the code 1, with its name and its value.
  ghost predicate AttributesRead(buf: seq<byte>, pos: nat, attributes: map<Name, Value>, order: seq<Name>, end: nat)
    decreases |order|
  {
    if order == [] then pos == end
    else
      && pos + 2 <= |buf| && UIntAt(buf, pos, 2) == 1
      && order[0] in attributes && UnmarshalStringAt(buf, pos + 2).Ok?
      && var name := UnmarshalStringAt(buf, pos + 2).value;
         && name.value == order[0] && Decode(buf, name.next).Ok?
         && var value := Decode(buf, name.next).value;
            value.value == Norm(attributes[order[0]]) && AttributesRead(buf, value.next, attributes, order[1..], end)
  }

  // From pos to end stands one filter.  Behind the code 2 a one asks for servers: it is there exactly if
  // the filter accepts the nodes that are no clients.
  ghost predicate FilterRead(buf: seq<byte>, pos: nat, f: Filter, order: seq<Name>, end: nat)
    requires IsServerSide(f)
  {
    if f.Attributes? then AttributesRead(buf, pos, f.attributes, order, end)
    else
      && end == pos + 3 <= |buf| && UIntAt(buf, pos, 2) == 2 && buf[pos + 2] <= 1
      && forall n: Node :: !n.isClient ==> (buf[pos + 2] == 1 <==> Test(f, n))
  }

  // From pos to end stand the filters with a form for the server, up to the first one that must keep
  // its place.
  ghost predicate FiltersRead(buf: seq<byte>, pos: nat, fs: seq<Filter>, orders: seq<seq<Name>>, end: nat)
    requires |fs| == |orders|
    decreases |fs|
  {
    if fs == [] || !IsReorderingAllowed(fs[0]) then pos == end
    else if !IsServerSide(fs[0]) then FiltersRead(buf, pos, fs[1..], orders[1..], end)
    else exists mid: nat ::
      FilterRead(buf, pos, fs[0], orders[0], mid) && FiltersRead(buf, mid, fs[1..], orders[1..], end)
  }

  lemma CodeAt(buf: seq<byte>, pos: nat, code: nat)
    requires At(buf, pos, LE(2, code)) && code < 0x1_0000
    ensures pos + 2 <= |buf| && UIntAt(buf, pos, 2) == code
  {
    Widths();
    UnsignedRoundTrip(2, code);
  }

  lemma AttributeRead(name: Name, value: Value, buf: seq<byte>, pos: nat)
    requires WellFormed(value) && At(buf, pos, EncodeCondition(AttributeIs(name, value)))
    requires |EncodeCondition(AttributeIs(name, value))| <= MAX_INT32
    ensures pos + 2 <= |buf| && UIntAt(buf, pos, 2) == 1
    ensures var next := pos + 7 + |name|;
      && UnmarshalStringAt(buf, pos + 2) == Ok(Read(name, next))
      && Decode(buf, next) == Ok(Read(Norm(value), pos + |EncodeCondition(AttributeIs(name, value))|))
  {
    hide At, Encode, WellFormed, Decode, Norm;
    var text := LE(1, STRING_CODE) + EncodeString(name);
    AtSplit(buf, pos, LE(2, ATTRIBUTE_FILTER_TYPE), text + Encode(value));
    AtSplit(buf, pos + 2, text, Encode(value));
    AtSplit(buf, pos + 2, LE(1, STRING_CODE), EncodeString(name));
    CodeAt(buf, pos, ATTRIBUTE_FILTER_TYPE);
    Int8AtWritten(buf, pos + 2, STRING_CODE);
    StringRoundTrip(name, buf, pos + 3);
    ValueRoundTrip(value, buf, pos + 7 + |name|);
  }

  lemma NodeTypeRead(f: Filter, buf: seq<byte>, pos: nat)
    requires f.NodeType? && At(buf, pos, EncodeCondition(IsServer(!f.isForClients)))
    ensures FilterRead(buf, pos, f, [], pos + 3)
  {
    var flag := LE(1, if !f.isForClients then 1 else 0);
    AtSplit(buf, pos, LE(2, NODE_TYPE_FILTER_TYPE), flag);
    CodeAt(buf, pos, NODE_TYPE_FILTER_TYPE);
    assert buf[pos + 2] == buf[pos + 2..pos + 3][0] == flag[0];
  }

  lemma {:induction false} AttributeRecordsRead(attributes: map<Name, Value>, order: seq<Name>, buf: seq<byte>, pos: nat)
    requires (forall name :: name in order ==> name in attributes) && Writable(AttributeRecords(attributes, order))
    requires At(buf, pos, EncodeConditions(AttributeRecords(attributes, order)))
    requires |EncodeConditions(AttributeRecords(attributes, order))| <= MAX_INT32
    ensures AttributesRead(buf, pos, attributes, order, pos + |EncodeConditions(AttributeRecords(attributes, order))|)
    decreases |order|
  {
    hide At, EncodeCondition, WellFormed, Decode, Norm, UnmarshalStringAt;
    if order != [] {
      var cs := AttributeRecords(attributes, order);
      var first, rest := AttributeIs(order[0], attributes[order[0]]), AttributeRecords(attributes, order[1..]);
      assert cs == [first] + rest && cs[1..] == rest && cs[0] == first;
      AtSplit(buf, pos, EncodeCondition(first), EncodeConditions(rest));
      AttributeRead(first.name, first.value, buf, pos);
      assert Writable(rest) by {
        assert forall i :: 0 <= i < |rest| ==> rest[i] == cs[i + 1];
      }
      AttributeRecordsRead(attributes, order[1..], buf, pos + |EncodeCondition(first)|);
    }
  }

  // The records of one filter are read as that filter.
  lemma FilterRecordsRead(f: Filter, order: seq<Name>, buf: seq<byte>, pos: nat)
    requires IsServerSide(f) && IsOrder(f, order) && Writable(RecordsOf(f, order))
    requires At(buf, pos, EncodeConditions(RecordsOf(f, order))) && |EncodeConditions(RecordsOf(f, order))| <= MAX_INT32
    ensures FilterRead(buf, pos, f, order, pos + |EncodeConditions(RecordsOf(f, order))|)
  {
    hide At, EncodeCondition, WellFormed;
    if f.Attributes? {
      AttributeRecordsRead(f.attributes, order, buf, pos);
    } else {
      var c := IsServer(!f.isForClients);
      assert [c][1..] == [] && EncodeConditions([c]) == EncodeCondition(c);
      NodeTypeRead(f, buf, pos);
      NodeTypeLength(!f.isForClients);
    }
  }

  lemma NodeTypeLength(server: bool)
    ensures |EncodeCondition(IsServer(server))| == 3
  {
  }

  // And those of all filters as the filters for the server.
  lemma {:induction false} AllRecordsRead(fs: seq<Filter>, orders: seq<seq<Name>>, buf: seq<byte>, pos: nat)
    requires AreOrders(fs, orders) && Writable(Records(fs, orders))
    requires At(buf, pos, EncodeConditions(Records(fs, orders))) && |EncodeConditions(Records(fs, orders))| <= MAX_INT32
    ensures FiltersRead(buf, pos, fs, orders, pos + |EncodeConditions(Records(fs, orders))|)
    decreases |fs|
  {
    hide At, WellFormed, EncodeConditions, RecordsOf, FilterRead;
    if fs != [] && IsReorderingAllowed(fs[0]) {
      OrdersTail(fs, orders);
      var cs, rest := RecordsOf(fs[0], orders[0]), Records(fs[1..], orders[1..]);
      EncodeConditionsConcat(cs, rest);
      AtSplit(buf, pos, EncodeConditions(cs), EncodeConditions(rest));
      assert Writable(cs) && Writable(rest) by {
        assert forall i :: 0 <= i < |cs| ==> cs[i] == (cs + rest)[i];
        assert forall i :: 0 <= i < |rest| ==> rest[i] == (cs + rest)[|cs| + i];
      }
      AllRecordsRead(fs[1..], orders[1..], buf, pos + |EncodeConditions(cs)|);
      if IsServerSide(fs[0]) {
        FilterRecordsRead(fs[0], orders[0], buf, pos);
      } else {
        NoRecords(fs[0], orders[0]);
      }
    } else {
      NothingEncoded();
    }
  }

  lemma FilterWritten(f: Filter, order: seq<Name>, base: seq<byte>, pos: nat, buf: seq<byte>)
    requires IsServerSide(f) && IsOrder(f, order) && Writable(RecordsOf(f, order))
    requires |EncodeConditions(RecordsOf(f, order))| <= MAX_INT32
    requires buf == Overwrite(base, pos, EncodeConditions(RecordsOf(f, order)))
    ensures FilterRead(buf, pos, f, order, pos + |EncodeConditions(RecordsOf(f, order))|)
  {
    hide Writable, EncodeConditions, RecordsOf, FilterRead;
    FilterRecordsRead(f, order, buf, pos);
  }

  lemma NoRecords(f: Filter, order: seq<Name>)
    requires IsReorderingAllowed(f) && !IsServerSide(f)
    ensures RecordsOf(f, order) == [] && EncodeConditions([]) == []
  {
  }

  lemma NothingEncoded()
    ensures EncodeConditions([]) == []
  {
  }
}
