// Reading a field of a binary object through the schema registry, and writing and reading put
// together.
module FieldReader {
  import opened Wrappers
  import opened Bytes
  import opened Streams
  import opened Values
  import opened Codec
  import opened Marshaller
  import opened ObjectLayout
  import Metadata
  import opened MetadataCache
  import SchemaIds

  // getTypeId: from the header, or from the class name when the type is not registered.
  function TypeIdOf(data: seq<byte>, typeIdOfName: seq<byte> -> int32): Result<int32> {
    if |data| < HEADER_LENGTH then Err(CorruptedObject)
    else if Int32At(data, TYPE_ID_POS) != UNREGISTERED_CODE then Ok(Int32At(data, TYPE_ID_POS))
    else
      match UnmarshalStringAt(data, HEADER_LENGTH)
      case Ok(name) => Ok(typeIdOfName(name.value))
      case Err(_) => Err(CorruptedObject)
  }

  method FindSlotPosition(footer: seq<byte>, size: nat, id: int32) returns (r: Result<Option<nat>>)
    ensures r == FindSlot(footer, size, id, 0)
  {
    var pos := 0;
    while pos < |footer|
      invariant FindSlot(footer, size, id, 0) == FindSlot(footer, size, id, pos)
      decreases |footer| - pos
    {
      if pos + 4 > |footer| {
        return Err(Panic);
      }
      if Int32At(footer, pos) == id {
        return Ok(Some(pos + 4));
      }
      pos := pos + 4 + size;
    }
    return Ok(None);
  }

  method FindSchemaIndex(fieldIds: seq<int32>, id: int32) returns (index: int)
    ensures index == LastIndex(fieldIds, id)
  {
    index := -1;
    for i := 0 to |fieldIds|
      invariant index == LastIndex(fieldIds[..i], id)
    {
      assert fieldIds[..i + 1][..i] == fieldIds[..i];
      if fieldIds[i] == id {
        index := i;
      }
    }
    assert fieldIds[..|fieldIds|] == fieldIds;
  }

  // The footer search of Field: by schema when the footer is compact, by scanning otherwise.
  method LocateOffset(cache: BinaryMetadataCache, compact: bool, footer: seq<byte>, size: nat, typeId: int32,
                      schemaId: int32, id: int32)
    returns (r: Result<Option<nat>>)
    requires cache.Valid()
    ensures r == OffsetPosition(compact, footer, size, SchemaOf(cache.View(), typeId, schemaId), id)
  {
    hide SchemaOf, CacheWellFormed;
    if compact {
      var schema := cache.GetSchema(typeId, schemaId);
      if schema.None? {
        return Err(SchemaNotFound);
      }
      var index := FindSchemaIndex(schema.value, id);
      r := Ok(if index == -1 then None else Some(index * size));
    } else {
      r := FindSlotPosition(footer, size, id);
    }
  }

  class BinaryObject {
    const data: seq<byte>
    const typeIdOfName: seq<byte> -> int32
    var typeId: int32   // zero until it is known

    ghost predicate Valid()
      reads this
    {
      typeId != 0 ==> TypeIdOf(data, typeIdOfName) == Ok(typeId)
    }

    constructor (data: seq<byte>, typeIdOfName: seq<byte> -> int32)
      ensures Valid() && this.data == data && this.typeIdOfName == typeIdOfName
    {
      this.data, this.typeIdOfName, typeId := data, typeIdOfName, 0;
    }

    method GetTypeId() returns (r: Result<int32>)
      requires Valid()
      modifies this
      ensures Valid() && r == TypeIdOf(data, typeIdOfName)
    {
      if |data| < HEADER_LENGTH {
        return Err(CorruptedObject);
      }
      if typeId != 0 {
        return Ok(typeId);
      }
      var id := Int32At(data, TYPE_ID_POS);
      if id == UNREGISTERED_CODE {
        var input := new InputStream(data, HEADER_LENGTH);
        var name := UnmarshalString(input);
        if name.Err? {
          return Err(CorruptedObject);
        }
        id := typeIdOfName(name.value);
      }
      typeId := id;
      return Ok(id);
    }

    // The value of a field, given the id that the mapper assigns to its name.
    method Field(cache: BinaryMetadataCache, id: int32) returns (r: Result<Value>)
      requires Valid() && cache.Valid()
      modifies this
      ensures Valid()
      ensures r == LookupField(data, SchemaFor(cache.View()), id)
    {
      hide FlagsOf, FooterOf, HasFlag, OffsetPosition, Decode, UnmarshalStringAt, CacheWellFormed, SchemaOf;
      var flags := FlagsOf(data);
      if !HasFlag(flags, HAS_SCHEMA) {
        return Ok(Null);
      }
      var typeId := GetTypeId();
      if typeId.Err? {
        return Err(CorruptedObject);
      }
      var f := FooterOf(data);
      if f.Err? {
        return Err(f.error);
      }
      var (footer, size) := f.value;
      var at := LocateOffset(cache, HasFlag(flags, COMPACT_FOOTER), footer, size, typeId.value,
                             Int32At(data, SCHEMA_ID_POS), id);
      if at.Err? {
        return Err(at.error);
      }
      if at.value.None? {
        return Ok(Null);
      }
      if at.value.value + size > |footer| {
        return Err(Panic);
      }
      var input := new InputStream(data, UIntAt(footer, at.value.value, size));
      r := Unmarshal(input);
    }

    // What a cache knows for the schema of this object.
    ghost function SchemaFor(cache: map<int32, Metadata.Meta>): Option<seq<int32>> {
      SchemaOfObject(data, typeIdOfName, cache)
    }
  }

  function SchemaOfObject(data: seq<byte>, typeIdOfName: seq<byte> -> int32, cache: map<int32, Metadata.Meta>): Option<seq<int32>> {
    match TypeIdOf(data, typeIdOfName)
    case Err(_) => None
    case Ok(typeId) => SchemaOf(cache, typeId, Int32At(data, SCHEMA_ID_POS))
  }

  // A finished object tells its type, by id or by class name, and its schema.
  lemma ObjectIdentity(compact: bool, typeId: int32, typeName: seq<byte>, ids: seq<int32>, values: seq<Value>,
                       typeIdOfName: seq<byte> -> int32)
    requires |ids| == |values| && HEADER_LENGTH + |ObjectBody(typeId, typeName, values)| <= MAX_INT32
    requires |ObjectBytes(compact, typeId, typeName, ids, values)| <= MAX_INT32
    ensures var data := ObjectBytes(compact, typeId, typeName, ids, values);
      && TypeIdOf(data, typeIdOfName) == Ok(if typeId == UNREGISTERED_CODE then typeIdOfName(typeName) else typeId)
      && Int32At(data, SCHEMA_ID_POS) == SchemaIds.SchemaId(ids)
  {
    hide Header, Footer, EncodeAll, ClassName, SlotsFrom, TypeIdResolves, FlagsOf, Flags, FooterOf,
         UnmarshalStringAt, SchemaIds.SchemaId;
    var start := HEADER_LENGTH + |ClassName(typeId, typeName)|;
    LayoutRead(compact, typeId, typeName, values, SlotsFrom(start, ids, values),
               ObjectBytes(compact, typeId, typeName, ids, values));
    SlotsLength(start, ids, values);
  }

  // Writing an object and storing its metadata makes every field readable through the registry,
  // whether or not the footer is compact and whether the type is registered or goes by its name.
  // Only a compact footer depends on the schema id not standing for another field list.
  lemma WriteThenRead(cache: map<int32, Metadata.Meta>, m: Metadata.Meta, compact: bool, typeId: int32,
                      ids: seq<int32>, values: seq<Value>, id: int32, typeIdOfName: seq<byte> -> int32)
    requires |ids| == |values| && AllWellFormed(values)
    requires HEADER_LENGTH + |ObjectBody(typeId, m.typeName, values)| <= MAX_INT32
    requires |ObjectBytes(compact, typeId, m.typeName, ids, values)| <= MAX_INT32
    requires m.typeId == if typeId == UNREGISTERED_CODE then typeIdOfName(m.typeName) else typeId
    requires CacheWellFormed(cache) && Put(cache, m).1
    requires var schemaId := SchemaIds.SchemaId(ids);
      m.body.Fields? && schemaId in m.body.schemas && m.body.schemas[schemaId] == ids
      && (compact ==> SchemaOf(cache, m.typeId, schemaId) in {None, Some(ids)})
    ensures var data := ObjectBytes(compact, typeId, m.typeName, ids, values);
      var schema := SchemaOfObject(data, typeIdOfName, Put(cache, m).0);
      var i := FieldIndex(compact, ids, id);
      LookupField(data, schema, id) == Ok(if i == -1 then Null else Norm(values[i]))
  {
    hide ObjectBytes, LookupField, SchemaOf, Put, ObjectBody;
    PutSchemas(cache, m, SchemaIds.SchemaId(ids));
    ObjectIdentity(compact, typeId, m.typeName, ids, values, typeIdOfName);
    var data := ObjectBytes(compact, typeId, m.typeName, ids, values);
    FieldLookup(compact, typeId, m.typeName, ids, values, SchemaOfObject(data, typeIdOfName, Put(cache, m).0), id);
  }
}
