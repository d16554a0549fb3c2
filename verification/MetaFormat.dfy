// The message that carries type metadata (binary_schema.go), as a reader finds it position by position.
module MetaFormat {
  import opened Wrappers
  import opened Bytes
  import opened Streams
  import opened Scalars
  import opened Codec
  import opened Metadata
  import opened MetaMessage

  // A name, and the position behind it.
  predicate NameAt(buf: seq<byte>, pos: nat, name: Name, next: nat) {
    UnmarshalStringAt(buf, pos) == Ok(Read(name, next)) && next <= |buf|
  }

  // A field is its name, type and id; an enum entry its name and ordinal; a schema its id, the number of
  // its fields and their ids.
  ghost predicate ItemAt(buf: seq<byte>, pos: nat, item: Item, next: nat) {
    match item
    case FieldItem(name, field) =>
      next >= 8 && NameAt(buf, pos, name, next - 8) && next <= |buf|
      && Int32At(buf, next - 8) == field.typeId && Int32At(buf, next - 4) == field.fieldId
    case NameItem(name, ord) =>
      next >= 4 && NameAt(buf, pos, name, next - 4) && next <= |buf| && Int32At(buf, next - 4) == ord
    case SchemaItem(schemaId, ids) =>
      next == pos + 8 + 4 * |ids| <= |buf|
      && Int32At(buf, pos) == schemaId && Int32At(buf, pos + 4) == |ids|
      && forall i :: 0 <= i < |ids| ==> Int32At(buf, pos + 8 + 4 * i) == ids[i]
  }

  ghost predicate ItemsAt(buf: seq<byte>, pos: nat, items: seq<Item>, end: nat)
    decreases |items|
  {
    if items == [] then pos == end
    else exists next: nat :: ItemAt(buf, pos, items[0], next) && ItemsAt(buf, next, items[1..], end)
  }

  // The number of the items and the items.
  ghost predicate ListAt(buf: seq<byte>, pos: nat, items: seq<Item>, end: nat) {
    pos + 4 <= |buf| && Int32At(buf, pos) == |items| && ItemsAt(buf, pos + 4, items, end)
  }

  // The fields, a zero, and the schemas.
  ghost predicate ObjectAt(buf: seq<byte>, pos: nat, fields: seq<Item>, schemas: seq<Item>, end: nat) {
    exists flag: nat ::
      ListAt(buf, pos, fields, flag) && flag < |buf| && buf[flag] == 0 && ListAt(buf, flag + 1, schemas, end)
  }

  // No fields, a one, the names, and no schemas.
  ghost predicate EnumAt(buf: seq<byte>, pos: nat, names: seq<Item>, end: nat) {
    exists flag: nat, schemas: nat ::
      && ListAt(buf, pos, [], flag) && flag < |buf| && buf[flag] == 1
      && ListAt(buf, flag + 1, names, schemas) && ListAt(buf, schemas, [], end)
  }

  ghost predicate BodyAt(buf: seq<byte>, pos: nat, m: Meta, nameOrder: seq<Name>, schemaOrder: seq<int32>, end: nat)
    requires AreOrders(m, nameOrder, schemaOrder)
  {
    match m.body
    case Fields(fields, order, schemas) => ObjectAt(buf, pos, FieldItems(fields, order), SchemaItems(schemas, schemaOrder), end)
    case Enum(nameToOrd, _) => EnumAt(buf, pos, NameItems(nameToOrd, nameOrder), end)
  }

  // The type id, the type name, the affinity key name (an empty one as null), and the body.
  ghost predicate MetaAt(buf: seq<byte>, pos: nat, m: Meta, nameOrder: seq<Name>, schemaOrder: seq<int32>, end: nat)
    requires AreOrders(m, nameOrder, schemaOrder)
  {
    && pos + 4 <= |buf| && Int32At(buf, pos) == m.typeId
    && exists key: nat, body: nat ::
      && NameAt(buf, pos + 4, m.typeName, key)
      && NameAt(buf, key, m.affKeyName, body) && (m.affKeyName == [] ==> body == key + 1)
      && BodyAt(buf, body, m, nameOrder, schemaOrder, end)
  }

  lemma NameWritten(name: Name, buf: seq<byte>, pos: nat)
    requires At(buf, pos, EncodeName(name)) && |EncodeName(name)| <= MAX_INT32
    ensures NameAt(buf, pos, name, pos + |EncodeName(name)|)
  {
    NameRead(name, buf, pos);
  }

  lemma {:induction false} IdsWritten(ids: seq<int32>, buf: seq<byte>, pos: nat, i: nat)
    requires At(buf, pos, EncodeIds(ids)) && i < |ids|
    ensures pos + 4 * |ids| <= |buf| && Int32At(buf, pos + 4 * i) == ids[i]
    decreases i
  {
    AtSplit(buf, pos, LE(4, ids[0]), EncodeIds(ids[1..]));
    if i == 0 {
      Int32AtWritten(buf, pos, ids[0]);
    } else {
      IdsWritten(ids[1..], buf, pos + 4, i - 1);
    }
  }

  lemma ItemWritten(item: Item, buf: seq<byte>, pos: nat)
    requires At(buf, pos, EncodeItem(item)) && |EncodeItem(item)| <= MAX_INT32
    ensures ItemAt(buf, pos, item, pos + |EncodeItem(item)|)
  {
    hide At, EncodeName, NameAt, EncodeIds;
    match item
    case FieldItem(name, field) =>
      AtSplit(buf, pos, EncodeName(name), LE(4, field.typeId) + LE(4, field.fieldId));
      var next := pos + |EncodeName(name)|;
      AtSplit(buf, next, LE(4, field.typeId), LE(4, field.fieldId));
      NameWritten(name, buf, pos);
      Int32AtWritten(buf, next, field.typeId);
      Int32AtWritten(buf, next + 4, field.fieldId);
    case NameItem(name, ord) =>
      AtSplit(buf, pos, EncodeName(name), LE(4, ord));
      NameWritten(name, buf, pos);
      Int32AtWritten(buf, pos + |EncodeName(name)|, ord);
    case SchemaItem(schemaId, ids) =>
      AtSplit(buf, pos, LE(4, schemaId), LE(4, |ids|) + EncodeIds(ids));
      AtSplit(buf, pos + 4, LE(4, |ids|), EncodeIds(ids));
      Int32AtWritten(buf, pos, schemaId);
      Int32AtWritten(buf, pos + 4, |ids|);
      assert pos + 8 + 4 * |ids| <= |buf| by { IdsFit(ids, buf, pos + 8); }
      forall i | 0 <= i < |ids| ensures Int32At(buf, pos + 8 + 4 * i) == ids[i] {
        IdsWritten(ids, buf, pos + 8, i);
      }
  }

  lemma IdsFit(ids: seq<int32>, buf: seq<byte>, pos: nat)
    requires At(buf, pos, EncodeIds(ids))
    ensures pos + 4 * |ids| <= |buf|
  {
  }

  lemma {:induction false} ItemsWritten(items: seq<Item>, buf: seq<byte>, pos: nat)
    requires At(buf, pos, EncodeItems(items)) && |EncodeItems(items)| <= MAX_INT32
    ensures ItemsAt(buf, pos, items, pos + |EncodeItems(items)|)
    decreases |items|
  {
    hide At, EncodeItem, ItemAt;
    if items != [] {
      AtSplit(buf, pos, EncodeItem(items[0]), EncodeItems(items[1..]));
      ItemWritten(items[0], buf, pos);
      ItemsWritten(items[1..], buf, pos + |EncodeItem(items[0])|);
    }
  }

  lemma ListWritten(items: seq<Item>, buf: seq<byte>, pos: nat)
    requires At(buf, pos, EncodeList(items)) && |EncodeList(items)| <= MAX_INT32
    ensures ListAt(buf, pos, items, pos + |EncodeList(items)|)
  {
    hide EncodeItems, ItemsAt;
    AtSplit(buf, pos, LE(4, |items|), EncodeItems(items));
    Int32AtWritten(buf, pos, |items|);
    ItemsWritten(items, buf, pos + 4);
  }

  lemma KeyWritten(key: Name, buf: seq<byte>, pos: nat)
    requires At(buf, pos, EncodeNullable(key)) && |EncodeNullable(key)| <= MAX_INT32
    ensures var next := pos + |EncodeNullable(key)|;
      NameAt(buf, pos, key, next) && (key == [] ==> next == pos + 1)
  {
    NullableRead(key, buf, pos);
  }

  // The client's message holds the metadata in this order, whatever the maps are ranged over.
  lemma MetaWritten(m: Meta, nameOrder: seq<Name>, schemaOrder: seq<int32>, buf: seq<byte>, pos: nat)
    requires AreOrders(m, nameOrder, schemaOrder)
    requires At(buf, pos, EncodeMeta(m, nameOrder, schemaOrder)) && |EncodeMeta(m, nameOrder, schemaOrder)| <= MAX_INT32
    ensures MetaAt(buf, pos, m, nameOrder, schemaOrder, pos + |EncodeMeta(m, nameOrder, schemaOrder)|)
  {
    hide At, EncodeName, EncodeNullable, EncodeList, EncodeBody, NameAt, ObjectAt, EnumAt, FieldItems, NameItems, SchemaItems;
    var msg := MessageOf(m, nameOrder, schemaOrder);
    var name, key, fields, body := EncodeName(m.typeName), EncodeNullable(m.affKeyName), EncodeList(msg.fields), EncodeBody(msg);
    AtSplit(buf, pos, LE(4, m.typeId), name + (key + (fields + body)));
    AtSplit(buf, pos + 4, name, key + (fields + body));
    AtSplit(buf, pos + 4 + |name|, key, fields + body);
    Int32AtWritten(buf, pos, m.typeId);
    NameWritten(m.typeName, buf, pos + 4);
    KeyWritten(m.affKeyName, buf, pos + 4 + |name|);
    BodyWritten(msg, buf, pos + 4 + |name| + |key|);
  }

  lemma BodyWritten(msg: Message, buf: seq<byte>, pos: nat)
    requires At(buf, pos, EncodeList(msg.fields) + EncodeBody(msg)) && |EncodeList(msg.fields) + EncodeBody(msg)| <= MAX_INT32
    ensures var end := pos + |EncodeList(msg.fields)| + |EncodeBody(msg)|;
      && (!msg.isEnum ==> ObjectAt(buf, pos, msg.fields, msg.schemas, end))
      && (msg.isEnum && msg.fields == [] && msg.schemas == [] ==> EnumAt(buf, pos, msg.names, end))
  {
    hide At, EncodeList, ListAt;
    var at := pos + |EncodeList(msg.fields)|;
    var flag: byte := if msg.isEnum then 1 else 0;
    var names := if msg.isEnum then EncodeList(msg.names) else [];
    AtSplit(buf, pos, EncodeList(msg.fields), EncodeBody(msg));
    AtSplit(buf, at, LE(1, flag), names + EncodeList(msg.schemas));
    AtSplit(buf, at + 1, names, EncodeList(msg.schemas));
    ListWritten(msg.fields, buf, pos);
    FlagRead(flag, buf, at);
    if msg.isEnum {
      ListWritten(msg.names, buf, at + 1);
    }
    ListWritten(msg.schemas, buf, at + 1 + |names|);
  }
}
