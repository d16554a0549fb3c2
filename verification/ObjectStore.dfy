// Finishing an object with its metadata put through the registry (binary_object.go): the writer,
// the registry and field access together.
module ObjectStore {
  import opened Wrappers
  import opened Bytes
  import opened Streams
  import opened Scalars
  import opened Values
  import opened Codec
  import opened Marshaller
  import opened ObjectLayout
  import opened BinaryObjects
  import opened FieldReader
  import Metadata
  import MetadataCache
  import RegistryPuts
  import SchemaIds

  // The metadata that is put: an unregistered type goes by the id of its name.
  function Registered(m: Metadata.Meta, typeIdOfName: seq<byte> -> int32): Metadata.Meta {
    if m.typeId == UNREGISTERED_CODE then m.(typeId := typeIdOfName(m.typeName)) else m
  }

  lemma RegisteredWellFormed(m: Metadata.Meta, schemaId: int32, ids: seq<int32>, typeIdOfName: seq<byte> -> int32)
    requires m.body.Fields? && Metadata.WellFormed(m)
    ensures Metadata.WellFormed(Registered(WithSchema(m, schemaId, ids), typeIdOfName))
  {
  }

  // A writer starts with well-formed metadata, and every field that it adds keeps it so.
  lemma AddedWellFormed(m: Metadata.Meta, name: Name, typeId: int32, id: int32)
    requires m.body.Fields? && Metadata.WellFormed(m)
    ensures Metadata.WellFormed(AddedField(m, name, typeId, id))
  {
  }

  // The metadata of the object that a writer would finish now.
  ghost function FinishedMeta(w: BinaryWriter, typeIdOfName: seq<byte> -> int32): Metadata.Meta
    requires w.Valid()
    reads w, w.out, w.schemaBld
  {
    var ids := Ids(w.schemaBld.data);
    Registered(WithSchema(w.newMeta, SchemaIds.SchemaId(ids), ids), typeIdOfName)
  }

  // Every field can be read through this cache, and every other id gives null.
  ghost predicate Readable(data: seq<byte>, compact: bool, ids: seq<int32>, values: seq<Value>,
                           typeIdOfName: seq<byte> -> int32, cache: map<int32, Metadata.Meta>)
    requires |ids| == |values|
  {
    forall id: int32 :: LookupField(data, SchemaOfObject(data, typeIdOfName, cache), id)
      == Ok(if FieldIndex(compact, ids, id) == -1 then Null else Norm(values[FieldIndex(compact, ids, id)]))
  }

  lemma WrittenReadable(cache: map<int32, Metadata.Meta>, m: Metadata.Meta, compact: bool,
                        slots: seq<Slot>, values: seq<Value>, typeIdOfName: seq<byte> -> int32)
    requires |slots| == |values| && AllWellFormed(values) && m.body.Fields? && MetadataCache.CacheWellFormed(cache)
    requires HEADER_LENGTH + |ObjectBody(m.typeId, m.typeName, values)| <= MAX_INT32
    requires |ObjectBytes(compact, m.typeId, m.typeName, Ids(slots), values)| <= MAX_INT32
    requires var ids := Ids(slots);
      var put := Registered(WithSchema(m, SchemaIds.SchemaId(ids), ids), typeIdOfName);
      && MetadataCache.Put(cache, put).1
      && (compact ==> MetadataCache.SchemaOf(cache, put.typeId, SchemaIds.SchemaId(ids)) in {None, Some(ids)})
    ensures var ids := Ids(slots);
      var put := Registered(WithSchema(m, SchemaIds.SchemaId(ids), ids), typeIdOfName);
      Readable(ObjectBytes(compact, m.typeId, m.typeName, ids, values), compact, ids, values, typeIdOfName,
               MetadataCache.Put(cache, put).0)
  {
    hide ObjectBytes, ObjectBody, LookupField, SchemaOfObject, MetadataCache.Put, MetadataCache.SchemaOf,
         MetadataCache.CacheWellFormed, SchemaIds.SchemaId, AllWellFormed;
    var ids := Ids(slots);
    var put := Registered(WithSchema(m, SchemaIds.SchemaId(ids), ids), typeIdOfName);
    assert put.body.Fields? && put.typeName == m.typeName;
    forall id: int32 ensures
      LookupField(ObjectBytes(compact, m.typeId, m.typeName, ids, values),
                  SchemaOfObject(ObjectBytes(compact, m.typeId, m.typeName, ids, values), typeIdOfName,
                                 MetadataCache.Put(cache, put).0), id)
        == Ok(if FieldIndex(compact, ids, id) == -1 then Null else Norm(values[FieldIndex(compact, ids, id)]))
    {
      WriteThenRead(cache, put, compact, m.typeId, ids, values, id, typeIdOfName);
    }
  }

  // ------------------------------------------------ only refused fields

  // A refused first field sets the schema flag all the same.
  lemma RefusedFlags(compact: bool)
    ensures var f := WriterFlags(compact, true, []);
      && f < 0x1_0000 && HasFlag(f, HAS_SCHEMA) && (HasFlag(f, COMPACT_FOOTER) <==> compact)
      && !HasFlag(f, HAS_RAW) && !HasFlag(f, OFFSET_ONE_BYTE) && !HasFlag(f, OFFSET_TWO_BYTES)
  {
  }

  // What a writer leaves behind whose fields were all refused: an empty footer under the schema flag.
  lemma RefusedRead(compact: bool, typeId: int32, typeName: Name, data: seq<byte>)
    requires data == FinishedBytes(compact, true, typeId, typeName, [], []) && |data| <= MAX_INT32
    ensures |data| >= HEADER_LENGTH && FlagsOf(data) == WriterFlags(compact, true, [])
    ensures TypeIdResolves(data) && FooterOf(data) == Ok(([], 4))
    ensures Int32At(data, TYPE_ID_POS) == typeId && Int32At(data, SCHEMA_ID_POS) == SchemaIds.SchemaId([])
    ensures typeId == UNREGISTERED_CODE ==>
      UnmarshalStringAt(data, HEADER_LENGTH) == Ok(Read(typeName, HEADER_LENGTH + |ClassName(typeId, typeName)|))
  {
    hide WriterFlags, FrontBytes, BackBytes, LE, SliceHash, ClassName, SchemaIds.SchemaId, TypeIdResolves,
         UnmarshalStringAt, HasFlag, UIntAt, Int32At, Int8At;
    var body, flags := ObjectBody(typeId, typeName, []), WriterFlags(compact, true, []);
    NoBody(typeId, typeName);
    var front, hash := FrontBytes(flags, typeId), LE(4, SliceHash(body));
    var back := BackBytes(HEADER_LENGTH + |body|, SchemaIds.SchemaId([]), HEADER_LENGTH + |body|);
    assert Ids([]) == [];
    assert data == front + hash + back + body;
    assert At(data, 0, front) && At(data, LENGTH_POS, back) && At(data, HEADER_LENGTH, body + []);
    assert data[HEADER_LENGTH + |body|..|data|] == [];
    hide At;
    RefusedFlags(compact);
    HeaderFrontRead(flags, typeId, data);
    HeaderBackRead(HEADER_LENGTH + |body|, SchemaIds.SchemaId([]), HEADER_LENGTH + |body|, data);
    ClassNameRead(typeId, typeName, [], data);
  }

  // Where no field was taken, every lookup gives null, unless a compact footer's schema id is unknown
  // or stands for a field list that has the id: then the lookup reaches behind the empty footer.
  lemma RefusedLookup(compact: bool, typeId: int32, typeName: Name, schema: Option<seq<int32>>, id: int32)
    requires |FinishedBytes(compact, true, typeId, typeName, [], [])| <= MAX_INT32
    ensures LookupField(FinishedBytes(compact, true, typeId, typeName, [], []), schema, id)
      == if compact && schema.None? then Err(SchemaNotFound)
         else if compact && id in schema.value then Err(Panic)
         else Ok(Null)
  {
    hide FinishedBytes, WriterFlags, FlagsOf, FooterOf, TypeIdResolves, HasFlag, Decode;
    RefusedRead(compact, typeId, typeName, FinishedBytes(compact, true, typeId, typeName, [], []));
    RefusedFlags(compact);
  }

  lemma RefusedReadable(cache: map<int32, Metadata.Meta>, m: Metadata.Meta, compact: bool, typeIdOfName: seq<byte> -> int32)
    requires m.body.Fields? && MetadataCache.CacheWellFormed(cache)
    requires |FinishedBytes(compact, true, m.typeId, m.typeName, [], [])| <= MAX_INT32
    requires var put := Registered(WithSchema(m, SchemaIds.SchemaId([]), []), typeIdOfName);
      && MetadataCache.Put(cache, put).1
      && (compact ==> MetadataCache.SchemaOf(cache, put.typeId, SchemaIds.SchemaId([])) in {None, Some([])})
    ensures var put := Registered(WithSchema(m, SchemaIds.SchemaId([]), []), typeIdOfName);
      Readable(FinishedBytes(compact, true, m.typeId, m.typeName, [], []), compact, [], [], typeIdOfName,
               MetadataCache.Put(cache, put).0)
  {
    hide FinishedBytes, LookupField, FlagsOf, FooterOf, TypeIdResolves, UnmarshalStringAt, Int32At, SchemaIds.SchemaId,
         MetadataCache.Put, MetadataCache.SchemaOf, MetadataCache.CacheWellFormed;
    var data := FinishedBytes(compact, true, m.typeId, m.typeName, [], []);
    var put := Registered(WithSchema(m, SchemaIds.SchemaId([]), []), typeIdOfName);
    RefusedRead(compact, m.typeId, m.typeName, data);
    MetadataCache.PutSchemas(cache, put, SchemaIds.SchemaId([]));
    forall id: int32 {
      RefusedLookup(compact, m.typeId, m.typeName, SchemaOfObject(data, typeIdOfName, MetadataCache.Put(cache, put).0), id);
    }
  }

  // ------------------------------------------------ every object

  // Nothing stands in the way of reading the object: a compact footer's schema id does not stand for
  // another field list.
  ghost predicate Unhindered(w: BinaryWriter, m: Metadata.Meta, cache: map<int32, Metadata.Meta>)
    requires w.Valid()
    reads w, w.out, w.schemaBld
  {
    var ids := Ids(w.schemaBld.data);
    w.compact ==> MetadataCache.SchemaOf(cache, m.typeId, SchemaIds.SchemaId(ids)) in {None, Some(ids)}
  }

  lemma ObjectLength(compact: bool, typeId: int32, typeName: Name, slots: seq<Slot>, values: seq<Value>)
    requires |slots| == |values| && HEADER_LENGTH + |ObjectBody(typeId, typeName, values)| <= MAX_INT32
    requires slots == SlotsFrom(HEADER_LENGTH + |ClassName(typeId, typeName)|, Ids(slots), values)
    ensures |ObjectBytes(compact, typeId, typeName, Ids(slots), values)|
      == HEADER_LENGTH + |ObjectBody(typeId, typeName, values)| + |Footer(compact, OffsetSize(slots), slots)|
  {
    hide Header, Footer, ObjectBody, SlotsFrom, ClassName;
  }

  lemma RefusedLength(compact: bool, typeId: int32, typeName: Name)
    ensures |FinishedBytes(compact, true, typeId, typeName, [], [])| == HEADER_LENGTH + |ObjectBody(typeId, typeName, [])|
  {
    hide FrontBytes, BackBytes, SliceHash, ObjectBody, WriterFlags, SchemaIds.SchemaId;
  }

  lemma StoredReadable(w: BinaryWriter, cache: map<int32, Metadata.Meta>, typeIdOfName: seq<byte> -> int32)
    requires w.Valid() && MetadataCache.CacheWellFormed(cache)
    requires w.out.position + |Footer(w.compact, OffsetSize(w.schemaBld.data), w.schemaBld.data)| <= MAX_INT32
    requires var m := FinishedMeta(w, typeIdOfName); MetadataCache.Put(cache, m).1 && Unhindered(w, m, cache)
    ensures |Ids(w.schemaBld.data)| == |w.values|
    ensures Readable(w.Bytes(), w.compact, Ids(w.schemaBld.data), w.values, typeIdOfName,
                     MetadataCache.Put(cache, FinishedMeta(w, typeIdOfName)).0)
  {
    hide Header, Footer, ObjectBody, ObjectBytes, FinishedBytes, SlotsFrom, ClassName, Readable, Overwrite, MetadataCache.Put,
         MetadataCache.SchemaOf, MetadataCache.CacheWellFormed, SchemaIds.SchemaId, SchemaIds.Fold, AllWellFormed;
    var slots, m := w.schemaBld.data, w.newMeta;
    if w.values == [] && w.hasSchema {
      RefusedLength(w.compact, m.typeId, m.typeName);
      assert slots == [] && Ids(slots) == [];
      RefusedReadable(cache, m, w.compact, typeIdOfName);
    } else {
      ObjectLength(w.compact, m.typeId, m.typeName, slots, w.values);
      FinishedIsObject(w.compact, w.hasSchema, m.typeId, m.typeName, slots, w.values);
      WrittenReadable(cache, m, w.compact, slots, w.values, typeIdOfName);
    }
  }

  // finalize: with the metadata put, the finished object stands in the stream and every field can be
  // read through the cache; otherwise the cache is as it was.
  method Finalize(w: BinaryWriter, cache: MetadataCache.BinaryMetadataCache, typeIdOfName: seq<byte> -> int32, sent: bool)
    returns (r: Result<()>)
    requires w.Valid() && cache.Valid() && Metadata.WellFormed(w.newMeta)
    requires w.out.position + |Footer(w.compact, OffsetSize(w.schemaBld.data), w.schemaBld.data)| <= MAX_INT32
    modifies w, w.out, cache
    ensures cache.Valid()
    ensures (cache.View(), r) == RegistryPuts.RegistryPut(old(cache.View()), old(FinishedMeta(w, typeIdOfName)), sent)
    ensures r.Err? ==> cache.View() == old(cache.View())
    ensures r.Ok? ==> Wrote(w.out, w.base, w.startPos, old(w.Bytes()))
    ensures r.Ok? && old(Unhindered(w, FinishedMeta(w, typeIdOfName), cache.View())) ==>
      && |old(Ids(w.schemaBld.data))| == |old(w.values)|
      && Readable(old(w.Bytes()), w.compact, old(Ids(w.schemaBld.data)), old(w.values), typeIdOfName, cache.View())
  {
    hide RegistryPuts.RegistryPut, MetadataCache.CacheWellFormed, Metadata.WellFormed, Laid, FinishedBytes, Overwrite,
         Readable, MetadataCache.Put, MetadataCache.SchemaOf, Footer, RegistryPuts.DropsKey, SchemaIds.SchemaId;
    ghost var view, unhindered := cache.View(), Unhindered(w, FinishedMeta(w, typeIdOfName), cache.View());
    var schemaId, fieldIds := w.schemaBld.Build();
    var m := Registered(WithSchema(w.newMeta, schemaId, fieldIds), typeIdOfName);
    RegisteredWellFormed(w.newMeta, schemaId, fieldIds, typeIdOfName);
    assert m == FinishedMeta(w, typeIdOfName);
    RegistryPuts.RegistryPutOutcome(view, m, sent);
    if MetadataCache.Put(view, m).1 && unhindered {
      StoredReadable(w, view, typeIdOfName);
    }
    var meta := new MetadataCache.BinaryMetadata(m);
    var put := RegistryPuts.PutMetadata(cache, meta, sent);
    var id, ids;
    r, id, ids := w.Finalize(put);
  }
}
