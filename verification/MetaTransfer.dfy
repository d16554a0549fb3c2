// The stream methods that send and receive type metadata (binary_schema.go), proved against the
// printer and parser of module MetaMessage.
module MetaTransfer {
  import opened Wrappers
  import opened Bytes
  import opened Streams
  import opened Scalars
  import opened Values
  import opened Codec
  import opened Marshaller
  import opened Metadata
  import opened MetaMessage
  import MetaFormat

  // ----------------------------------------------------------------- writing

  lemma {:induction false} EncodeItemsSnoc(items: seq<Item>, item: Item)
    ensures EncodeItems(items + [item]) == EncodeItems(items) + EncodeItem(item)
  {
    hide EncodeItem;
    if items == [] {
      assert ([] + [item])[1..] == [];
      assert [] + [item] == [item];
    } else {
      EncodeItemsSnoc(items[1..], item);
      assert (items + [item])[1..] == items[1..] + [item];
    }
  }

  // One item more has been written, with room left for the rest.
  lemma ItemWritten(items: seq<Item>, i: nat, buf: seq<byte>, pos: nat)
    requires i < |items|
    ensures Overwrite(Overwrite(buf, pos, EncodeItems(items[..i])), pos + |EncodeItems(items[..i])|, EncodeItem(items[i]))
         == Overwrite(buf, pos, EncodeItems(items[..i + 1]))
    ensures EncodeItems(items[..i + 1]) == EncodeItems(items[..i]) + EncodeItem(items[i])
    ensures |EncodeItems(items[..i + 1])| <= |EncodeItems(items)|
  {
    hide EncodeItem, EncodeItems, Overwrite;
    EncodeItemsSnoc(items[..i], items[i]);
    assert items[..i] + [items[i]] == items[..i + 1];
    OverwriteTwice(buf, pos, EncodeItems(items[..i]), EncodeItem(items[i]));
    EncodeItemsPrefix(items, i + 1);
  }

  lemma {:induction false} EncodeItemsPrefix(items: seq<Item>, i: nat)
    requires i <= |items|
    ensures |EncodeItems(items[..i])| <= |EncodeItems(items)|
    decreases |items| - i
  {
    hide EncodeItem, EncodeItems;
    if i == |items| {
      assert items[..i] == items;
    } else {
      EncodeItemsSnoc(items[..i], items[i]);
      assert items[..i] + [items[i]] == items[..i + 1];
      EncodeItemsPrefix(items, i + 1);
    }
  }

  method MarshalEmptyStringAsNull(out: OutputStream, name: Name)
    requires out.position + |EncodeNullable(name)| <= MAX_INT32
    modifies out
    ensures Wrote(out, old(out.buffer), old(out.position), EncodeNullable(name))
  {
    hide Overwrite, EncodeString;
    if |name| == 0 {
      out.WriteInt8(NULL_CODE);
    } else {
      MarshalString(out, name);
    }
  }

  method WriteField(out: OutputStream, name: Name, field: FieldMeta)
    requires out.position + |EncodeItem(FieldItem(name, field))| <= MAX_INT32
    modifies out
    ensures Wrote(out, old(out.buffer), old(out.position), EncodeItem(FieldItem(name, field)))
  {
    hide Overwrite, EncodeString, LE, Grow;
    OverwriteThrice(out.buffer, out.position, EncodeName(name), LE(4, field.typeId), LE(4, field.fieldId));
    MarshalString(out, name);
    out.WriteInt32(field.typeId);
    out.WriteInt32(field.fieldId);
  }

  method WriteEnumName(out: OutputStream, name: Name, ord: int32)
    requires out.position + |EncodeItem(NameItem(name, ord))| <= MAX_INT32
    modifies out
    ensures Wrote(out, old(out.buffer), old(out.position), EncodeItem(NameItem(name, ord)))
  {
    hide Overwrite, EncodeString, LE, Grow;
    OverwriteTwice(out.buffer, out.position, EncodeName(name), LE(4, ord));
    MarshalString(out, name);
    out.WriteInt32(ord);
  }

  lemma {:induction false} EncodeIdsSnoc(ids: seq<int32>, i: nat)
    requires i < |ids|
    ensures EncodeIds(ids[..i + 1]) == EncodeIds(ids[..i]) + LE(4, ids[i])
    decreases i
  {
    hide LE;
    if i > 0 {
      EncodeIdsSnoc(ids[1..], i - 1);
      assert ids[..i + 1][1..] == ids[1..][..i] && ids[..i][1..] == ids[1..][..i - 1];
    } else {
      assert ids[..1][1..] == [];
    }
  }

  method WriteIds(out: OutputStream, ids: seq<int32>)
    requires out.position <= |out.buffer| && out.position + 4 * |ids| <= MAX_INT32
    modifies out
    ensures Wrote(out, old(out.buffer), old(out.position), EncodeIds(ids))
  {
    hide Overwrite, LE, Grow, EncodeIds;
    NoIds();
    OverwriteNothing(out.buffer, out.position);
    for i := 0 to |ids|
      invariant Wrote(out, old(out.buffer), old(out.position), EncodeIds(ids[..i]))
    {
      EncodeIdsSnoc(ids, i);
      OverwriteTwice(old(out.buffer), old(out.position), EncodeIds(ids[..i]), LE(4, ids[i]));
      out.WriteInt32(ids[i]);
    }
    assert ids[..|ids|] == ids;
  }

  lemma NoIds()
    ensures EncodeIds([]) == []
  {
  }

  method WriteSchema(out: OutputStream, schemaId: int32, ids: seq<int32>)
    requires out.position + |EncodeItem(SchemaItem(schemaId, ids))| <= MAX_INT32
    modifies out
    ensures Wrote(out, old(out.buffer), old(out.position), EncodeItem(SchemaItem(schemaId, ids)))
  {
    hide Overwrite, LE, Grow, EncodeIds;
    OverwriteThrice(out.buffer, out.position, LE(4, schemaId), LE(4, |ids|), EncodeIds(ids));
    out.WriteInt32(schemaId);
    out.WriteInt32(|ids|);
    WriteIds(out, ids);
  }

  lemma NoItems()
    ensures EncodeItems([]) == []
  {
  }

  method WriteFields(out: OutputStream, fields: map<Name, FieldMeta>, order: seq<Name>)
    requires out.position + |EncodeList(FieldItems(fields, order))| <= MAX_INT32
    modifies out
    ensures Wrote(out, old(out.buffer), old(out.position), EncodeList(FieldItems(fields, order)))
  {
    hide Overwrite, LE, Grow, EncodeItem, EncodeItems, FieldItems;
    ghost var items := FieldItems(fields, order);
    OverwriteTwice(out.buffer, out.position, LE(4, |order|), EncodeItems(items));
    out.WriteInt32(|order|);
    ghost var buf, pos := out.buffer, out.position;
    NoItems();
    OverwriteNothing(buf, pos);
    for idx := 0 to |order|
      invariant Wrote(out, buf, pos, EncodeItems(items[..idx]))
    {
      ItemWritten(items, idx, buf, pos);
      WriteField(out, order[idx], FieldOf(fields, order[idx]));
    }
    assert items[..|order|] == items;
  }

  method WriteNames(out: OutputStream, names: map<Name, int32>, order: seq<Name>)
    requires forall n :: n in order ==> n in names
    requires out.position + |EncodeList(NameItems(names, order))| <= MAX_INT32
    modifies out
    ensures Wrote(out, old(out.buffer), old(out.position), EncodeList(NameItems(names, order)))
  {
    hide Overwrite, LE, Grow, EncodeItem, EncodeItems, NameItems;
    ghost var items := NameItems(names, order);
    OverwriteTwice(out.buffer, out.position, LE(4, |order|), EncodeItems(items));
    out.WriteInt32(|order|);
    ghost var buf, pos := out.buffer, out.position;
    NoItems();
    OverwriteNothing(buf, pos);
    for idx := 0 to |order|
      invariant Wrote(out, buf, pos, EncodeItems(items[..idx]))
    {
      ItemWritten(items, idx, buf, pos);
      WriteEnumName(out, order[idx], names[order[idx]]);
    }
    assert items[..|order|] == items;
  }

  method WriteSchemas(out: OutputStream, schemas: map<int32, seq<int32>>, order: seq<int32>)
    requires forall id :: id in order ==> id in schemas
    requires out.position + |EncodeList(SchemaItems(schemas, order))| <= MAX_INT32
    modifies out
    ensures Wrote(out, old(out.buffer), old(out.position), EncodeList(SchemaItems(schemas, order)))
  {
    hide Overwrite, LE, Grow, EncodeItem, EncodeItems, SchemaItems;
    ghost var items := SchemaItems(schemas, order);
    OverwriteTwice(out.buffer, out.position, LE(4, |order|), EncodeItems(items));
    out.WriteInt32(|order|);
    ghost var buf, pos := out.buffer, out.position;
    NoItems();
    OverwriteNothing(buf, pos);
    for idx := 0 to |order|
      invariant Wrote(out, buf, pos, EncodeItems(items[..idx]))
    {
      ItemWritten(items, idx, buf, pos);
      WriteSchema(out, order[idx], schemas[order[idx]]);
    }
    assert items[..|order|] == items;
  }

  method WriteHead(out: OutputStream, typeId: int32, typeName: Name, affKeyName: Name)
    requires out.position + 4 + |EncodeName(typeName)| + |EncodeNullable(affKeyName)| <= MAX_INT32
    modifies out
    ensures Wrote(out, old(out.buffer), old(out.position), LE(4, typeId) + (EncodeName(typeName) + EncodeNullable(affKeyName)))
  {
    hide Overwrite, LE, Grow, EncodeString, EncodeNullable;
    OverwriteThrice(out.buffer, out.position, LE(4, typeId), EncodeName(typeName), EncodeNullable(affKeyName));
    out.WriteInt32(typeId);
    MarshalString(out, typeName);
    MarshalEmptyStringAsNull(out, affKeyName);
  }

  method WriteTail(out: OutputStream, m: Meta, nameOrder: seq<Name>, schemaOrder: seq<int32>)
    requires AreOrders(m, nameOrder, schemaOrder)
    requires out.position + |EncodeBody(MessageOf(m, nameOrder, schemaOrder))| <= MAX_INT32
    modifies out
    ensures Wrote(out, old(out.buffer), old(out.position), EncodeBody(MessageOf(m, nameOrder, schemaOrder)))
  {
    hide Overwrite, LE, Grow, EncodeList;
    ghost var buf, pos, message := out.buffer, out.position, MessageOf(m, nameOrder, schemaOrder);
    ghost var names := if message.isEnum then EncodeList(message.names) else [];
    OverwriteThrice(buf, pos, LE(1, if message.isEnum then 1 else 0), names, EncodeList(message.schemas));
    out.WriteInt8(if m.body.Enum? then 1 else 0);
    if m.body.Enum? {
      WriteNames(out, m.body.nameToOrd, nameOrder);
      WriteSchemas(out, map[], []);
    } else {
      OverwriteNothing(out.buffer, out.position);
      WriteSchemas(out, m.body.schemas, schemaOrder);
    }
  }

  // The message of sendBinaryMeta.
  method WriteBinaryMeta(out: OutputStream, m: Meta, nameOrder: seq<Name>, schemaOrder: seq<int32>)
    requires AreOrders(m, nameOrder, schemaOrder)
    requires out.position + |EncodeMeta(m, nameOrder, schemaOrder)| <= MAX_INT32
    modifies out
    ensures Wrote(out, old(out.buffer), old(out.position), EncodeMeta(m, nameOrder, schemaOrder))
    ensures MetaFormat.MetaAt(out.buffer, old(out.position), m, nameOrder, schemaOrder, out.position)
  {
    hide Overwrite, LE, Grow, EncodeName, EncodeNullable, EncodeList, EncodeBody, MetaFormat.MetaAt;
    ghost var buf, pos, message := out.buffer, out.position, MessageOf(m, nameOrder, schemaOrder);
    ghost var head := LE(4, m.typeId) + (EncodeName(m.typeName) + EncodeNullable(m.affKeyName));
    assert EncodeMessage(message) == head + (EncodeList(message.fields) + EncodeBody(message));
    OverwriteThrice(buf, pos, head, EncodeList(message.fields), EncodeBody(message));
    WriteHead(out, m.typeId, m.typeName, m.affKeyName);
    if m.body.Fields? {
      WriteFields(out, m.body.fields, m.body.order);
    } else {
      WriteFields(out, map[], []);
    }
    WriteTail(out, m, nameOrder, schemaOrder);
    MetaFormat.MetaWritten(m, nameOrder, schemaOrder, out.buffer, pos);
  }

  // ----------------------------------------------------------------- reading

  method ReadField(input: InputStream) returns (r: Result<Item>)
    modifies input
    ensures Reads(input, r, DecodeItem(KField, input.buffer, old(input.position)))
  {
    hide UnmarshalStringAt, Int32At;
    var name := UnmarshalString(input);
    match name
    case Err(e) => return Err(e);
    case Ok(chars) =>
      if input.Available() < 8 {
        return Err(Panic);
      }
      var typeId := input.ReadInt32();
      var fieldId := input.ReadInt32();
      return Ok(FieldItem(chars, FieldMeta(typeId, fieldId)));
  }

  method ReadEnumName(input: InputStream) returns (r: Result<Item>)
    modifies input
    ensures Reads(input, r, DecodeItem(KName, input.buffer, old(input.position)))
  {
    hide UnmarshalStringAt, Int32At;
    var name := UnmarshalString(input);
    match name
    case Err(e) => return Err(e);
    case Ok(chars) =>
      if input.Available() < 4 {
        return Err(Panic);
      }
      var ord := input.ReadInt32();
      return Ok(NameItem(chars, ord));
  }

  lemma {:induction false} IdsAtSnoc(buf: seq<byte>, pos: nat, n: nat)
    requires pos + 4 * n + 4 <= |buf|
    ensures IdsAt(buf, pos, n + 1) == IdsAt(buf, pos, n) + [Int32At(buf, pos + 4 * n)]
    decreases n
  {
    hide Int32At;
    if n > 0 {
      IdsAtSnoc(buf, pos + 4, n - 1);
    }
  }

  method ReadSchema(input: InputStream) returns (r: Result<Item>)
    modifies input
    ensures Reads(input, r, DecodeItem(KSchema, input.buffer, old(input.position)))
  {
    hide Int32At;
    ghost var buf, pos := input.buffer, input.position;
    if input.Available() < 4 {
      return Err(Panic);
    }
    var schemaId := input.ReadInt32();
    if input.Available() < 4 {
      return Err(InvalidStream);
    }
    var size := input.ReadInt32();
    var sz: int := size;
    if sz < 0 || input.Available() < 4 * sz {
      return Err(Panic);
    }
    var fieldIds := [];
    for i := 0 to sz
      invariant input.position == pos + 8 + 4 * i && fieldIds == IdsAt(buf, pos + 8, i)
    {
      IdsAtSnoc(buf, pos + 8, i);
      var id := input.ReadInt32();
      fieldIds := fieldIds + [id];
    }
    return Ok(SchemaItem(schemaId, fieldIds));
  }

  // What is left to read of a list, and what reading one entry more makes of it.
  lemma ItemsStep(kind: ItemKind, buf: seq<byte>, pos: nat, n: nat, acc: seq<Item>)
    requires pos <= |buf| && n > 0
    ensures DecodeItems(kind, buf, pos, n, acc) ==
      match DecodeItem(kind, buf, pos)
      case Err(e) => Err(e)
      case Ok(item) => DecodeItems(kind, buf, item.next, n - 1, acc + [item.value])
  {
  }

  lemma FieldMapStep(items: seq<Item>, item: Item)
    requires AllOfKind(KField, items) && item.FieldItem?
    ensures AllOfKind(KField, items + [item])
    ensures FieldMap(items + [item]) == FieldMap(items)[item.name := item.field]
    ensures FieldNames(items + [item]) == FieldNames(items) + [item.name]
  {
    assert (items + [item])[..|items|] == items;
  }

  lemma NameMapsStep(items: seq<Item>, item: Item)
    requires AllOfKind(KName, items) && item.NameItem?
    ensures AllOfKind(KName, items + [item]) && NameMaps(items + [item]) == NameMaps(items).Put(item.name, item.ord)
  {
    assert (items + [item])[..|items|] == items;
  }

  lemma SchemaMapStep(items: seq<Item>, item: Item)
    requires AllOfKind(KSchema, items) && item.SchemaItem?
    ensures AllOfKind(KSchema, items + [item])
    ensures SchemaMap(items + [item]) == SchemaMap(items)[item.schemaId := item.fieldIds]
  {
    assert (items + [item])[..|items|] == items;
  }

  // The result of a list reader: the maps its entries fill.
  datatype FieldsRead = FieldsRead(fields: map<Name, FieldMeta>, order: seq<Name>)

  ghost predicate ReadsFields(input: InputStream, r: Result<FieldsRead>, spec: Result<Read<seq<Item>>>)
    reads input
  {
    match spec
    case Err(e) => r == Err(e)
    case Ok(read) =>
      && AllOfKind(KField, read.value) && input.position == read.next
      && r == Ok(FieldsRead(FieldMap(read.value), FieldNames(read.value)))
  }

  method ReadFields(input: InputStream) returns (r: Result<FieldsRead>)
    modifies input
    ensures ReadsFields(input, r, DecodeList(KField, input.buffer, old(input.position)))
  {
    hide DecodeItem, DecodeItems, FieldMap, FieldNames, Int32At;
    ghost var buf, pos := input.buffer, input.position;
    if input.Available() < 4 {
      return Err(Panic);
    }
    var length := input.ReadInt32();
    var fields: map<Name, FieldMeta>, order: seq<Name> := map[], [];
    ghost var items: seq<Item> := [];
    NoEntries();
    var n: nat := if length < 0 then 0 else length;
    for i := 0 to n
      invariant AllOfKind(KField, items) && fields == FieldMap(items) && order == FieldNames(items)
      invariant input.position <= |buf|
      invariant DecodeList(KField, buf, pos) == DecodeItems(KField, buf, input.position, n - i, items)
    {
      ItemsStep(KField, buf, input.position, n - i, items);
      var item := ReadField(input);
      if item.Err? {
        return Err(item.error);
      }
      FieldMapStep(items, item.value);
      items := items + [item.value];
      order := order + [item.value.name];
      fields := fields[item.value.name := item.value.field];
    }
    NothingLeft(KField, buf, input.position, items);
    return Ok(FieldsRead(fields, order));
  }

  lemma NoEntries()
    ensures FieldMap([]) == map[] && FieldNames([]) == [] && NameMaps([]) == Names(map[], map[]) && SchemaMap([]) == map[]
  {
  }

  lemma NothingLeft(kind: ItemKind, buf: seq<byte>, pos: nat, acc: seq<Item>)
    requires pos <= |buf|
    ensures DecodeItems(kind, buf, pos, 0, acc) == Ok(Read(acc, pos))
  {
  }

  ghost predicate ReadsNames(input: InputStream, r: Result<Names>, spec: Result<Read<seq<Item>>>)
    reads input
  {
    match spec
    case Err(e) => r == Err(e)
    case Ok(read) => AllOfKind(KName, read.value) && input.position == read.next && r == Ok(NameMaps(read.value))
  }

  method ReadNames(input: InputStream) returns (r: Result<Names>)
    modifies input
    ensures ReadsNames(input, r, DecodeList(KName, input.buffer, old(input.position)))
  {
    hide DecodeItem, DecodeItems, NameMaps, Int32At;
    ghost var buf, pos := input.buffer, input.position;
    if input.Available() < 4 {
      return Err(Panic);
    }
    var length := input.ReadInt32();
    var names := Names(map[], map[]);
    ghost var items: seq<Item> := [];
    NoEntries();
    var n: nat := if length < 0 then 0 else length;
    for i := 0 to n
      invariant AllOfKind(KName, items) && names == NameMaps(items)
      invariant input.position <= |buf|
      invariant DecodeList(KName, buf, pos) == DecodeItems(KName, buf, input.position, n - i, items)
    {
      ItemsStep(KName, buf, input.position, n - i, items);
      var item := ReadEnumName(input);
      if item.Err? {
        return Err(item.error);
      }
      NameMapsStep(items, item.value);
      items := items + [item.value];
      names := names.Put(item.value.name, item.value.ord);
    }
    NothingLeft(KName, buf, input.position, items);
    return Ok(names);
  }

  ghost predicate ReadsSchemas(input: InputStream, r: Result<map<int32, seq<int32>>>, spec: Result<Read<seq<Item>>>)
    reads input
  {
    match spec
    case Err(e) => r == Err(e)
    case Ok(read) => AllOfKind(KSchema, read.value) && input.position == read.next && r == Ok(SchemaMap(read.value))
  }

  method ReadSchemas(input: InputStream) returns (r: Result<map<int32, seq<int32>>>)
    modifies input
    ensures ReadsSchemas(input, r, DecodeList(KSchema, input.buffer, old(input.position)))
  {
    hide DecodeItem, DecodeItems, SchemaMap, Int32At;
    ghost var buf, pos := input.buffer, input.position;
    if input.Available() < 4 {
      return Err(Panic);
    }
    var length := input.ReadInt32();
    var schemas: map<int32, seq<int32>> := map[];
    ghost var items: seq<Item> := [];
    NoEntries();
    var n: nat := if length < 0 then 0 else length;
    for i := 0 to n
      invariant AllOfKind(KSchema, items) && schemas == SchemaMap(items)
      invariant input.position <= |buf|
      invariant DecodeList(KSchema, buf, pos) == DecodeItems(KSchema, buf, input.position, n - i, items)
    {
      ItemsStep(KSchema, buf, input.position, n - i, items);
      var item := ReadSchema(input);
      if item.Err? {
        return Err(item.error);
      }
      SchemaMapStep(items, item.value);
      items := items + [item.value];
      schemas := schemas[item.value.schemaId := item.value.fieldIds];
    }
    NothingLeft(KSchema, buf, input.position, items);
    return Ok(schemas);
  }

  lemma OneByte(buf: seq<byte>, pos: nat)
    requires pos < |buf|
    ensures UIntAt(buf, pos, 1) == buf[pos]
  {
    assert buf[pos..pos + 1] == [buf[pos]] && [buf[pos]][1..] == [];
  }

  method UnmarshalBinaryMeta(input: InputStream) returns (r: Result<Meta>)
    modifies input
    ensures Reads(input, r, DecodeMeta(input.buffer, old(input.position)))
  {
    hide UnmarshalStringAt, DecodeList, FieldMap, FieldNames, NameMaps, SchemaMap, Int32At, AllOfKind;
    if input.Available() < 4 {
      return Err(Panic);
    }
    var typeId := input.ReadInt32();
    var typeName := UnmarshalString(input);
    if typeName.Err? {
      return Err(typeName.error);
    }
    var affKeyName := UnmarshalString(input);
    if affKeyName.Err? {
      return Err(affKeyName.error);
    }
    var fields := ReadFields(input);
    if fields.Err? {
      return Err(fields.error);
    }
    if input.Available() < 1 {
      return Err(Panic);
    }
    ghost var at := input.position;
    var flag := input.ReadUInt(1);
    var isEnum := flag == 1;
    assert flag == input.buffer[at] by { OneByte(input.buffer, at); }
    var names := Names(map[], map[]);
    if isEnum {
      var read := ReadNames(input);
      if read.Err? {
        return Err(read.error);
      }
      names := read.value;
    }
    var schemas := ReadSchemas(input);
    if schemas.Err? {
      return Err(schemas.error);
    }
    return Ok(Meta(typeId, typeName.value, affKeyName.value,
                   if isEnum then Enum(names.nameToOrd, names.ordToName)
                   else Fields(fields.value.fields, fields.value.order, schemas.value)));
  }
}
