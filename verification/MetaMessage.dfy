// The message that carries type metadata to and from the server (binary_schema.go).
module MetaMessage {
  import opened Wrappers
  import opened Bytes
  import opened IterationOrder
  import opened Streams
  import opened Scalars
  import opened Values
  import opened Codec
  import opened RoundTrip
  import opened Metadata

  // An entry of one of the three lists of a message.
  datatype Item =
    | FieldItem(name: Name, field: FieldMeta)
    | NameItem(name: Name, ord: int32)
    | SchemaItem(schemaId: int32, fieldIds: seq<int32>)
  {
    function Kind(): ItemKind {
      match this case FieldItem(_, _) => KField case NameItem(_, _) => KName case SchemaItem(_, _) => KSchema
    }
  }

  datatype ItemKind = KField | KName | KSchema

  // A message before its lists are turned into maps.
  datatype Message = Message(typeId: int32, typeName: Name, affKeyName: Name, fields: seq<Item>,
                             isEnum: bool, names: seq<Item>, schemas: seq<Item>)

  // ----------------------------------------------------------------- writing

  function EncodeName(name: Name): seq<byte> {
    LE(1, STRING_CODE) + EncodeString(name)
  }

  // marshalEmptyStringAsNull
  function EncodeNullable(name: Name): seq<byte> {
    if name == [] then LE(1, NULL_CODE) else EncodeName(name)
  }

  function EncodeIds(ids: seq<int32>): (s: seq<byte>)
    ensures |s| == 4 * |ids|
  {
    if ids == [] then [] else LE(4, ids[0]) + EncodeIds(ids[1..])
  }

  function EncodeItem(item: Item): (s: seq<byte>)
    ensures |s| >= 1
  {
    match item
    case FieldItem(name, field) => EncodeName(name) + (LE(4, field.typeId) + LE(4, field.fieldId))
    case NameItem(name, ord) => EncodeName(name) + LE(4, ord)
    case SchemaItem(schemaId, ids) => LE(4, schemaId) + (LE(4, |ids|) + EncodeIds(ids))
  }

  function EncodeItems(items: seq<Item>): (s: seq<byte>)
    ensures |s| >= |items|
  {
    if items == [] then [] else EncodeItem(items[0]) + EncodeItems(items[1..])
  }

  function EncodeList(items: seq<Item>): seq<byte> {
    LE(4, |items|) + EncodeItems(items)
  }

  function EncodeBody(m: Message): seq<byte> {
    LE(1, if m.isEnum then 1 else 0) + ((if m.isEnum then EncodeList(m.names) else []) + EncodeList(m.schemas))
  }

  function EncodeMessage(m: Message): seq<byte> {
    LE(4, m.typeId) + (EncodeName(m.typeName) + (EncodeNullable(m.affKeyName) + (EncodeList(m.fields) + EncodeBody(m))))
  }

  function FieldItems(fields: map<Name, FieldMeta>, order: seq<Name>): (items: seq<Item>)
    ensures |items| == |order|
    ensures forall i :: 0 <= i < |order| ==> items[i] == FieldItem(order[i], FieldOf(fields, order[i]))
  {
    if order == [] then []
    else FieldItems(fields, order[..|order| - 1]) + [FieldItem(order[|order| - 1], FieldOf(fields, order[|order| - 1]))]
  }

  function NameItems(names: map<Name, int32>, order: seq<Name>): (items: seq<Item>)
    requires forall n :: n in order ==> n in names
    ensures |items| == |order|
    ensures forall i :: 0 <= i < |order| ==> items[i] == NameItem(order[i], names[order[i]])
  {
    if order == [] then []
    else NameItems(names, order[..|order| - 1]) + [NameItem(order[|order| - 1], names[order[|order| - 1]])]
  }

  function SchemaItems(schemas: map<int32, seq<int32>>, order: seq<int32>): (items: seq<Item>)
    requires forall id :: id in order ==> id in schemas
    ensures |items| == |order|
    ensures forall i :: 0 <= i < |order| ==> items[i] == SchemaItem(order[i], schemas[order[i]])
  {
    if order == [] then []
    else SchemaItems(schemas, order[..|order| - 1]) + [SchemaItem(order[|order| - 1], schemas[order[|order| - 1]])]
  }

  // The orders in which the enum names and the schemas are ranged over.
  ghost predicate AreOrders(m: Meta, nameOrder: seq<Name>, schemaOrder: seq<int32>) {
    match m.body
    case Fields(_, _, schemas) => nameOrder == [] && IsOrderOf(schemaOrder, schemas.Keys)
    case Enum(nameToOrd, _) => IsOrderOf(nameOrder, nameToOrd.Keys) && schemaOrder == []
  }

  function MessageOf(m: Meta, nameOrder: seq<Name>, schemaOrder: seq<int32>): Message
    requires AreOrders(m, nameOrder, schemaOrder)
  {
    match m.body
    case Fields(fields, order, schemas) =>
      Message(m.typeId, m.typeName, m.affKeyName, FieldItems(fields, order), false, [], SchemaItems(schemas, schemaOrder))
    case Enum(nameToOrd, _) =>
      Message(m.typeId, m.typeName, m.affKeyName, [], true, NameItems(nameToOrd, nameOrder), [])
  }

  // ----------------------------------------------------------------- reading

  function IdsAt(buf: seq<byte>, pos: nat, n: nat): (ids: seq<int32>)
    requires pos + 4 * n <= |buf|
    ensures |ids| == n
    decreases n
  {
    if n == 0 then [] else [Int32At(buf, pos)] + IdsAt(buf, pos + 4, n - 1)
  }

  // Integers are read without a check: the source panics at the end of the stream.
  function DecodeItem(kind: ItemKind, buf: seq<byte>, pos: nat): (r: Result<Read<Item>>)
    ensures r.Ok? ==> pos < r.value.next <= |buf| && r.value.value.Kind() == kind
  {
    match kind
    case KField =>
      (match UnmarshalStringAt(buf, pos)
       case Err(e) => Err(e)
       case Ok(s) =>
         if |buf| - s.next < 8 then Err(Panic)
         else Ok(Read(FieldItem(s.value, FieldMeta(Int32At(buf, s.next), Int32At(buf, s.next + 4))), s.next + 8)))
    case KName =>
      (match UnmarshalStringAt(buf, pos)
       case Err(e) => Err(e)
       case Ok(s) =>
         if |buf| - s.next < 4 then Err(Panic)
         else Ok(Read(NameItem(s.value, Int32At(buf, s.next)), s.next + 4)))
    case KSchema =>
      if |buf| - pos < 4 then Err(Panic)
      else if |buf| - (pos + 4) < 4 then Err(InvalidStream)
      else
        var n := Int32At(buf, pos + 4);
        if n < 0 || |buf| - (pos + 8) < 4 * n then Err(Panic)
        else Ok(Read(SchemaItem(Int32At(buf, pos), IdsAt(buf, pos + 8, n)), pos + 8 + 4 * n))
  }

  function DecodeItems(kind: ItemKind, buf: seq<byte>, pos: nat, n: nat, acc: seq<Item>): (r: Result<Read<seq<Item>>>)
    requires pos <= |buf|
    ensures r.Ok? ==> pos <= r.value.next <= |buf|
    decreases n
  {
    if n == 0 then Ok(Read(acc, pos))
    else
      match DecodeItem(kind, buf, pos)
      case Err(e) => Err(e)
      case Ok(item) => DecodeItems(kind, buf, item.next, n - 1, acc + [item.value])
  }

  // readMap: a negative count reads as an empty map.
  function DecodeList(kind: ItemKind, buf: seq<byte>, pos: nat): (r: Result<Read<seq<Item>>>)
    ensures r.Ok? ==> pos < r.value.next <= |buf|
  {
    if |buf| - pos < 4 then Err(Panic)
    else
      var n := Int32At(buf, pos);
      DecodeItems(kind, buf, pos + 4, if n < 0 then 0 else n, [])
  }

  datatype Tail = Tail(isEnum: bool, names: seq<Item>, schemas: seq<Item>)

  function DecodeTail(buf: seq<byte>, pos: nat): (r: Result<Read<Tail>>)
    ensures r.Ok? ==> pos < r.value.next <= |buf|
  {
    if |buf| - pos < 1 then Err(Panic)
    else
      var isEnum := buf[pos] == 1;
      match if isEnum then DecodeList(KName, buf, pos + 1) else Ok(Read([], pos + 1))
      case Err(e) => Err(e)
      case Ok(names) =>
        match DecodeList(KSchema, buf, names.next)
        case Err(e) => Err(e)
        case Ok(schemas) => Ok(Read(Tail(isEnum, names.value, schemas.value), schemas.next))
  }

  function DecodeMessage(buf: seq<byte>, pos: nat): (r: Result<Read<Message>>) {
    if |buf| - pos < 4 then Err(Panic)
    else
      match UnmarshalStringAt(buf, pos + 4)
      case Err(e) => Err(e)
      case Ok(typeName) =>
        match UnmarshalStringAt(buf, typeName.next)
        case Err(e) => Err(e)
        case Ok(affKeyName) =>
          match DecodeList(KField, buf, affKeyName.next)
          case Err(e) => Err(e)
          case Ok(fields) =>
            match DecodeTail(buf, fields.next)
            case Err(e) => Err(e)
            case Ok(tail) =>
              Ok(Read(Message(Int32At(buf, pos), typeName.value, affKeyName.value, fields.value,
                              tail.value.isEnum, tail.value.names, tail.value.schemas), tail.next))
  }

  // The maps that the entries of a list fill, in order.
  function FieldMap(items: seq<Item>): map<Name, FieldMeta>
    requires forall i :: 0 <= i < |items| ==> items[i].FieldItem?
  {
    if items == [] then map[]
    else
      var last := items[|items| - 1];
      FieldMap(items[..|items| - 1])[last.name := last.field]
  }

  function FieldNames(items: seq<Item>): seq<Name>
    requires forall i :: 0 <= i < |items| ==> items[i].FieldItem?
  {
    if items == [] then [] else FieldNames(items[..|items| - 1]) + [items[|items| - 1].name]
  }

  function NameMaps(items: seq<Item>): Names
    requires forall i :: 0 <= i < |items| ==> items[i].NameItem?
  {
    if items == [] then Names(map[], map[])
    else
      var last := items[|items| - 1];
      NameMaps(items[..|items| - 1]).Put(last.name, last.ord)
  }

  function SchemaMap(items: seq<Item>): map<int32, seq<int32>>
    requires forall i :: 0 <= i < |items| ==> items[i].SchemaItem?
  {
    if items == [] then map[]
    else
      var last := items[|items| - 1];
      SchemaMap(items[..|items| - 1])[last.schemaId := last.fieldIds]
  }

  predicate AllOfKind(kind: ItemKind, items: seq<Item>) {
    forall i :: 0 <= i < |items| ==> items[i].Kind() == kind
  }

  predicate Typed(m: Message) {
    AllOfKind(KField, m.fields) && AllOfKind(KName, m.names) && AllOfKind(KSchema, m.schemas)
  }

  function MetaOf(m: Message): Meta
    requires Typed(m)
  {
    Meta(m.typeId, m.typeName, m.affKeyName,
         if m.isEnum then Enum(NameMaps(m.names).nameToOrd, NameMaps(m.names).ordToName)
         else Fields(FieldMap(m.fields), FieldNames(m.fields), SchemaMap(m.schemas)))
  }

  lemma {:induction false} ItemsTyped(kind: ItemKind, buf: seq<byte>, pos: nat, n: nat, acc: seq<Item>)
    requires pos <= |buf| && AllOfKind(kind, acc)
    ensures DecodeItems(kind, buf, pos, n, acc).Ok? ==> AllOfKind(kind, DecodeItems(kind, buf, pos, n, acc).value.value)
    decreases n
  {
    hide DecodeItem;
    if n > 0 {
      match DecodeItem(kind, buf, pos)
      case Err(_) =>
      case Ok(item) => ItemsTyped(kind, buf, item.next, n - 1, acc + [item.value]);
    }
  }

  lemma ListTyped(kind: ItemKind, buf: seq<byte>, pos: nat)
    ensures DecodeList(kind, buf, pos).Ok? ==> AllOfKind(kind, DecodeList(kind, buf, pos).value.value)
  {
    hide DecodeItems;
    if |buf| - pos >= 4 {
      var n := Int32At(buf, pos);
      ItemsTyped(kind, buf, pos + 4, if n < 0 then 0 else n, []);
    }
  }

  lemma MessageTyped(buf: seq<byte>, pos: nat)
    ensures DecodeMessage(buf, pos).Ok? ==> Typed(DecodeMessage(buf, pos).value.value)
  {
    hide DecodeList, UnmarshalStringAt, AllOfKind;
    if DecodeMessage(buf, pos).Ok? {
      var typeName := UnmarshalStringAt(buf, pos + 4).value;
      var affKeyName := UnmarshalStringAt(buf, typeName.next).value;
      ListTyped(KField, buf, affKeyName.next);
      var fields := DecodeList(KField, buf, affKeyName.next).value;
      TailTyped(buf, fields.next);
    }
  }

  lemma TailTyped(buf: seq<byte>, pos: nat)
    ensures DecodeTail(buf, pos).Ok? ==>
      AllOfKind(KName, DecodeTail(buf, pos).value.value.names) && AllOfKind(KSchema, DecodeTail(buf, pos).value.value.schemas)
  {
    hide DecodeList;
    if |buf| - pos >= 1 {
      ListTyped(KName, buf, pos + 1);
      var names := if buf[pos] == 1 then DecodeList(KName, buf, pos + 1) else Ok(Read([], pos + 1));
      if names.Ok? {
        ListTyped(KSchema, buf, names.value.next);
      }
    }
  }

  // unmarshalBinaryMeta
  function DecodeMeta(buf: seq<byte>, pos: nat): Result<Read<Meta>> {
    MessageTyped(buf, pos);
    match DecodeMessage(buf, pos)
    case Err(e) => Err(e)
    case Ok(m) => Ok(Read(MetaOf(m.value), m.next))
  }

  function EncodeMeta(m: Meta, nameOrder: seq<Name>, schemaOrder: seq<int32>): seq<byte>
    requires AreOrders(m, nameOrder, schemaOrder)
  {
    EncodeMessage(MessageOf(m, nameOrder, schemaOrder))
  }

  // -------------------------------------------------------- bytes and lists

  lemma NameRead(name: Name, buf: seq<byte>, pos: nat)
    requires At(buf, pos, EncodeName(name)) && |EncodeName(name)| <= MAX_INT32
    ensures UnmarshalStringAt(buf, pos) == Ok(Read(name, pos + |EncodeName(name)|))
  {
    AtSplit(buf, pos, LE(1, STRING_CODE), EncodeString(name));
    Int8AtWritten(buf, pos, STRING_CODE);
    StringRoundTrip(name, buf, pos + 1);
  }

  lemma NullableRead(name: Name, buf: seq<byte>, pos: nat)
    requires At(buf, pos, EncodeNullable(name)) && |EncodeNullable(name)| <= MAX_INT32
    ensures UnmarshalStringAt(buf, pos) == Ok(Read(name, pos + |EncodeNullable(name)|))
  {
    if name == [] {
      Int8AtWritten(buf, pos, NULL_CODE);
    } else {
      NameRead(name, buf, pos);
    }
  }

  lemma {:induction false} IdsRead(ids: seq<int32>, buf: seq<byte>, pos: nat)
    requires At(buf, pos, EncodeIds(ids))
    ensures pos + 4 * |ids| <= |buf| && IdsAt(buf, pos, |ids|) == ids
  {
    if ids != [] {
      AtSplit(buf, pos, LE(4, ids[0]), EncodeIds(ids[1..]));
      Int32AtWritten(buf, pos, ids[0]);
      IdsRead(ids[1..], buf, pos + 4);
    }
  }

  lemma ItemRead(item: Item, buf: seq<byte>, pos: nat)
    requires At(buf, pos, EncodeItem(item)) && |EncodeItem(item)| <= MAX_INT32
    ensures DecodeItem(item.Kind(), buf, pos) == Ok(Read(item, pos + |EncodeItem(item)|))
  {
    hide At, EncodeName, UnmarshalStringAt, EncodeIds, IdsAt;
    match item
    case FieldItem(name, field) =>
      AtSplit(buf, pos, EncodeName(name), LE(4, field.typeId) + LE(4, field.fieldId));
      var next := pos + |EncodeName(name)|;
      AtSplit(buf, next, LE(4, field.typeId), LE(4, field.fieldId));
      NameRead(name, buf, pos);
      Int32AtWritten(buf, next, field.typeId);
      Int32AtWritten(buf, next + 4, field.fieldId);
    case NameItem(name, ord) =>
      AtSplit(buf, pos, EncodeName(name), LE(4, ord));
      NameRead(name, buf, pos);
      Int32AtWritten(buf, pos + |EncodeName(name)|, ord);
    case SchemaItem(schemaId, ids) =>
      AtSplit(buf, pos, LE(4, schemaId), LE(4, |ids|) + EncodeIds(ids));
      AtSplit(buf, pos + 4, LE(4, |ids|), EncodeIds(ids));
      Int32AtWritten(buf, pos, schemaId);
      Int32AtWritten(buf, pos + 4, |ids|);
      IdsRead(ids, buf, pos + 8);
  }

  lemma {:induction false} ItemsRead(kind: ItemKind, items: seq<Item>, buf: seq<byte>, pos: nat, acc: seq<Item>)
    requires AllOfKind(kind, items) && pos <= |buf|
    requires At(buf, pos, EncodeItems(items)) && |EncodeItems(items)| <= MAX_INT32
    ensures DecodeItems(kind, buf, pos, |items|, acc) == Ok(Read(acc + items, pos + |EncodeItems(items)|))
    decreases |items|
  {
    hide At, EncodeItem, DecodeItem;
    if items == [] {
      assert acc + items == acc;
    } else {
      var item, rest := items[0], items[1..];
      AtSplit(buf, pos, EncodeItem(item), EncodeItems(rest));
      ItemRead(item, buf, pos);
      ItemsRead(kind, rest, buf, pos + |EncodeItem(item)|, acc + [item]);
      AppendCons(acc, item, rest);
      assert [item] + rest == items;
    }
  }

  lemma ListRead(kind: ItemKind, items: seq<Item>, buf: seq<byte>, pos: nat)
    requires AllOfKind(kind, items)
    requires At(buf, pos, EncodeList(items)) && |EncodeList(items)| <= MAX_INT32
    ensures DecodeList(kind, buf, pos) == Ok(Read(items, pos + |EncodeList(items)|))
  {
    hide EncodeItems, DecodeItems;
    AtSplit(buf, pos, LE(4, |items|), EncodeItems(items));
    Int32AtWritten(buf, pos, |items|);
    ItemsRead(kind, items, buf, pos + 4, []);
    assert [] + items == items;
  }

  lemma TailRead(m: Message, buf: seq<byte>, pos: nat)
    requires Typed(m) && (!m.isEnum ==> m.names == [])
    requires At(buf, pos, EncodeBody(m)) && |EncodeBody(m)| <= MAX_INT32
    ensures DecodeTail(buf, pos) == Ok(Read(Tail(m.isEnum, m.names, m.schemas), pos + |EncodeBody(m)|))
  {
    hide At, EncodeList, DecodeList;
    var flag: byte := if m.isEnum then 1 else 0;
    var names := if m.isEnum then EncodeList(m.names) else [];
    AtSplit(buf, pos, LE(1, flag), names + EncodeList(m.schemas));
    AtSplit(buf, pos + 1, names, EncodeList(m.schemas));
    FlagRead(flag, buf, pos);
    if m.isEnum {
      ListRead(KName, m.names, buf, pos + 1);
    }
    ListRead(KSchema, m.schemas, buf, pos + 1 + |names|);
  }

  lemma FlagRead(flag: byte, buf: seq<byte>, pos: nat)
    requires At(buf, pos, LE(1, flag))
    ensures pos < |buf| && buf[pos] == flag
  {
    assert buf[pos] == buf[pos..pos + 1][0];
  }

  lemma MessageRoundTrip(m: Message, buf: seq<byte>, pos: nat)
    requires Typed(m) && (!m.isEnum ==> m.names == [])
    requires At(buf, pos, EncodeMessage(m)) && |EncodeMessage(m)| <= MAX_INT32
    ensures DecodeMessage(buf, pos) == Ok(Read(m, pos + |EncodeMessage(m)|))
  {
    hide At, EncodeName, EncodeNullable, EncodeList, EncodeBody, UnmarshalStringAt, DecodeList, DecodeTail;
    var name, aff, fields, body := EncodeName(m.typeName), EncodeNullable(m.affKeyName), EncodeList(m.fields), EncodeBody(m);
    AtSplit(buf, pos, LE(4, m.typeId), name + (aff + (fields + body)));
    AtSplit(buf, pos + 4, name, aff + (fields + body));
    AtSplit(buf, pos + 4 + |name|, aff, fields + body);
    AtSplit(buf, pos + 4 + |name| + |aff|, fields, body);
    Int32AtWritten(buf, pos, m.typeId);
    NameRead(m.typeName, buf, pos + 4);
    NullableRead(m.affKeyName, buf, pos + 4 + |name|);
    ListRead(KField, m.fields, buf, pos + 4 + |name| + |aff|);
    TailRead(m, buf, pos + 4 + |name| + |aff| + |fields|);
  }

  // --------------------------------------------------------- lists and maps

  lemma FieldSnoc(fields: map<Name, FieldMeta>, init: seq<Name>, last: Name)
    ensures var items, item := FieldItems(fields, init), FieldItem(last, FieldOf(fields, last));
      && FieldItems(fields, init + [last]) == items + [item]
      && FieldNames(items + [item]) == FieldNames(items) + [last]
      && FieldMap(items + [item]) == FieldMap(items)[last := item.field]
  {
    hide FieldOf;
    var items, item := FieldItems(fields, init), FieldItem(last, FieldOf(fields, last));
    assert (init + [last])[..|init|] == init && (items + [item])[..|items|] == items;
  }

  lemma {:induction false} FieldsRebuilt(fields: map<Name, FieldMeta>, order: seq<Name>)
    ensures FieldNames(FieldItems(fields, order)) == order
    ensures var r := FieldMap(FieldItems(fields, order));
      forall f :: (f in r <==> f in order) && (f in r ==> r[f] == FieldOf(fields, f))
    decreases |order|
  {
    if order == [] {
      assert FieldItems(fields, order) == [];
    } else {
      hide FieldOf, FieldItems, FieldNames, FieldMap;
      var init, last := order[..|order| - 1], order[|order| - 1];
      assert order == init + [last];
      FieldsRebuilt(fields, init);
      FieldSnoc(fields, init, last);
    }
  }

  lemma NameSnoc(names: map<Name, int32>, init: seq<Name>, last: Name)
    requires (forall n :: n in init ==> n in names) && last in names
    ensures var items, item := NameItems(names, init), NameItem(last, names[last]);
      && NameItems(names, init + [last]) == items + [item]
      && NameMaps(items + [item]) == NameMaps(items).Put(last, names[last])
  {
    var items, item := NameItems(names, init), NameItem(last, names[last]);
    assert (init + [last])[..|init|] == init && (items + [item])[..|items|] == items;
  }

  lemma MirrorAt(names: map<Name, int32>, ords: map<int32, Name>, name: Name)
    requires Mirror(names, ords) && name in names
    ensures names[name] in ords && forall o :: o in ords ==> (ords[o] == name <==> o == names[name])
  {
  }

  // Both sides of the enum, as far as the names in the list go.
  ghost predicate Lists(r: Names, names: map<Name, int32>, ords: map<int32, Name>, order: seq<Name>)
    requires forall n :: n in order ==> n in names
  {
    && (forall n :: (n in r.nameToOrd <==> n in order) && (n in r.nameToOrd ==> r.nameToOrd[n] == names[n]))
    && (forall o :: (o in r.ordToName <==> o in ords && ords[o] in order) && (o in r.ordToName ==> r.ordToName[o] == ords[o]))
  }

  lemma ListsMore(r: Names, names: map<Name, int32>, ords: map<int32, Name>, init: seq<Name>, last: Name)
    requires Mirror(names, ords) && (forall n :: n in init ==> n in names) && last in names
    requires Lists(r, names, ords, init)
    ensures Lists(r.Put(last, names[last]), names, ords, init + [last])
  {
    MirrorAt(names, ords, last);
    hide Mirror;
    assert forall n :: n in init + [last] <==> n in init || n == last;
  }

  // The ordinals' side comes out right when the two sides of the enum mirror each other.
  lemma {:induction false} NamesRebuilt(names: map<Name, int32>, ords: map<int32, Name>, order: seq<Name>)
    requires Mirror(names, ords) && forall n :: n in order ==> n in names
    ensures Lists(NameMaps(NameItems(names, order)), names, ords, order)
    decreases |order|
  {
    if order == [] {
      assert NameItems(names, order) == [];
    } else {
      hide NameItems, NameMaps, Mirror, Lists;
      var init, last := order[..|order| - 1], order[|order| - 1];
      assert order == init + [last];
      NamesRebuilt(names, ords, init);
      NameSnoc(names, init, last);
      ListsMore(NameMaps(NameItems(names, init)), names, ords, init, last);
    }
  }

  lemma SchemaSnoc(schemas: map<int32, seq<int32>>, init: seq<int32>, last: int32)
    requires (forall id :: id in init ==> id in schemas) && last in schemas
    ensures var items, item := SchemaItems(schemas, init), SchemaItem(last, schemas[last]);
      && SchemaItems(schemas, init + [last]) == items + [item]
      && SchemaMap(items + [item]) == SchemaMap(items)[last := schemas[last]]
  {
    var items, item := SchemaItems(schemas, init), SchemaItem(last, schemas[last]);
    assert (init + [last])[..|init|] == init && (items + [item])[..|items|] == items;
  }

  lemma {:induction false} SchemasRebuilt(schemas: map<int32, seq<int32>>, order: seq<int32>)
    requires forall id :: id in order ==> id in schemas
    ensures var r := SchemaMap(SchemaItems(schemas, order));
      forall id :: (id in r <==> id in order) && (id in r ==> r[id] == schemas[id])
    decreases |order|
  {
    if order == [] {
      assert SchemaItems(schemas, order) == [];
    } else {
      hide SchemaItems, SchemaMap;
      var init, last := order[..|order| - 1], order[|order| - 1];
      assert order == init + [last];
      SchemasRebuilt(schemas, init);
      SchemaSnoc(schemas, init, last);
    }
  }

  lemma MetaRebuilt(m: Meta, nameOrder: seq<Name>, schemaOrder: seq<int32>)
    requires Metadata.WellFormed(m) && AreOrders(m, nameOrder, schemaOrder)
    ensures Typed(MessageOf(m, nameOrder, schemaOrder))
    ensures MetaOf(MessageOf(m, nameOrder, schemaOrder)) == m
  {
    hide FieldMap, FieldItems, FieldNames, NameMaps, NameItems, SchemaMap, SchemaItems;
    match m.body
    case Fields(fields, order, schemas) =>
      FieldsRebuilt(fields, order);
      SchemasRebuilt(schemas, schemaOrder);
      assert FieldMap(FieldItems(fields, order)) == fields;
      assert SchemaMap(SchemaItems(schemas, schemaOrder)) == schemas;
    case Enum(nameToOrd, ordToName) =>
      NamesRebuilt(nameToOrd, ordToName, nameOrder);
      assert NameMaps(NameItems(nameToOrd, nameOrder)) == Names(nameToOrd, ordToName);
  }

  // Decoding the client's message gives the metadata back, in whatever order its maps were ranged
  // over, and stops right behind the message.
  lemma MetaRoundTrip(m: Meta, nameOrder: seq<Name>, schemaOrder: seq<int32>, buf: seq<byte>, pos: nat)
    requires Metadata.WellFormed(m) && AreOrders(m, nameOrder, schemaOrder)
    requires var data := EncodeMeta(m, nameOrder, schemaOrder); At(buf, pos, data) && |data| <= MAX_INT32
    ensures DecodeMeta(buf, pos) == Ok(Read(m, pos + |EncodeMeta(m, nameOrder, schemaOrder)|))
  {
    hide EncodeMessage, DecodeMessage, MetaOf, At;
    MetaRebuilt(m, nameOrder, schemaOrder);
    MessageRoundTrip(MessageOf(m, nameOrder, schemaOrder), buf, pos);
  }
}
