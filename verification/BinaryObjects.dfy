// The binary object writer and reader of binary_object.go and the schema builder of
// binary_schema.go, step by step on a shared stream.
module BinaryObjects {
  import opened Wrappers
  import opened Bytes
  import opened Streams
  import opened Values
  import opened Codec
  import opened Marshaller
  import opened ObjectLayout
  import Metadata
  import SchemaIds

  type Name = Metadata.Name

  // ---------------------------------------------------------- schema builder

  lemma {:induction false} FoldSnoc(s: SchemaIds.word, ids: seq<int32>, id: int32)
    ensures SchemaIds.Fold(s, ids + [id]) == SchemaIds.Update(SchemaIds.Fold(s, ids), id)
  {
    hide SchemaIds.Update;
    SchemaIds.FoldConcat(s, ids, [id]);
    assert [id][1..] == [];
  }

  lemma {:induction false} FooterSnoc(compact: bool, size: nat, slots: seq<Slot>, i: nat)
    requires i < |slots|
    ensures Footer(compact, size, slots[..i + 1]) == Footer(compact, size, slots[..i]) + SlotBytes(compact, size, slots[i])
    decreases i
  {
    hide SlotBytes;
    if i == 0 {
      assert slots[..1][1..] == [];
    } else {
      FooterSnoc(compact, size, slots[1..], i - 1);
      assert slots[..i + 1][1..] == slots[1..][..i];
      assert slots[..i][1..] == slots[1..][..i - 1];
    }
  }

  class SchemaBuilder {
    var schemaId: SchemaIds.word
    var data: seq<Slot>

    ghost predicate Valid()
      reads this
    {
      schemaId == SchemaIds.Fold(SchemaIds.FNV_OFFSET_BASIS, Ids(data))
    }

    constructor ()
      ensures Valid() && data == []
    {
      schemaId := SchemaIds.FNV_OFFSET_BASIS;
      data := [];
    }

    method AddField(fieldId: int32, offset: int32)
      requires Valid()
      modifies this
      ensures Valid() && data == old(data) + [Slot(fieldId, offset)]
    {
      hide SchemaIds.Update;
      FoldSnoc(SchemaIds.FNV_OFFSET_BASIS, Ids(data), fieldId);
      assert Ids(data + [Slot(fieldId, offset)]) == Ids(data) + [fieldId];
      data := data + [Slot(fieldId, offset)];
      schemaId := SchemaIds.Update(schemaId, fieldId);
    }

    method Build() returns (id: int32, fieldIds: seq<int32>)
      requires Valid()
      ensures fieldIds == Ids(data) && id == SchemaIds.SchemaId(fieldIds)
    {
      fieldIds := [];
      for idx := 0 to |data|
        invariant fieldIds == Ids(data[..idx])
      {
        fieldIds := fieldIds + [data[idx].id];
      }
      assert data[..|data|] == data;
      id := ToInt32(schemaId);
    }

    method WriteFooter(out: OutputStream, compact: bool) returns (size: nat)
      requires out.position <= |out.buffer|
      requires out.position + |Footer(compact, OffsetSize(data), data)| <= MAX_INT32
      modifies out
      ensures size == if data == [] then 0 else OffsetSize(data)
      ensures Wrote(out, old(out.buffer), old(out.position), Footer(compact, OffsetSize(data), data))
    {
      hide Overwrite, Footer;
      if |data| == 0 {
        OverwriteNothing(out.buffer, out.position);
        NoFooter(compact, OffsetSize(data));
        return 0;
      }
      var lastOffset := data[|data| - 1].offset;
      size := if lastOffset < 0x100 then 1 else if lastOffset < 0x1_0000 then 2 else 4;
      WriteSlots(out, compact, size, data);
    }
  }

  lemma NoFooter(compact: bool, size: nat)
    ensures Footer(compact, size, []) == []
  {
  }

  // The loop of WriteFooter.
  method WriteSlots(out: OutputStream, compact: bool, size: nat, slots: seq<Slot>)
    requires size in {1, 2, 4} && out.position <= |out.buffer|
    requires out.position + |Footer(compact, size, slots)| <= MAX_INT32
    modifies out
    ensures Wrote(out, old(out.buffer), old(out.position), Footer(compact, size, slots))
  {
    hide Overwrite, SlotBytes, Footer;
    OverwriteNothing(out.buffer, out.position);
    NoFooter(compact, size);
    for idx := 0 to |slots|
      invariant Wrote(out, old(out.buffer), old(out.position), Footer(compact, size, slots[..idx]))
    {
      FooterSnoc(compact, size, slots, idx);
      FooterPrefix(compact, size, slots, idx + 1);
      OverwriteTwice(old(out.buffer), old(out.position), Footer(compact, size, slots[..idx]),
                     SlotBytes(compact, size, slots[idx]));
      WriteSlot(out, compact, size, slots[idx]);
    }
    assert slots[..|slots|] == slots;
  }

  lemma {:induction false} FooterPrefix(compact: bool, size: nat, slots: seq<Slot>, i: nat)
    requires i <= |slots|
    ensures |Footer(compact, size, slots[..i])| <= |Footer(compact, size, slots)|
    decreases |slots| - i
  {
    hide Footer;
    if i == |slots| {
      assert slots[..i] == slots;
    } else {
      FooterSnoc(compact, size, slots, i);
      FooterPrefix(compact, size, slots, i + 1);
    }
  }

  method WriteSlot(out: OutputStream, compact: bool, size: nat, slot: Slot)
    requires size in {1, 2, 4} && out.position + Stride(compact, size) <= MAX_INT32
    modifies out
    ensures Wrote(out, old(out.buffer), old(out.position), SlotBytes(compact, size, slot))
  {
    hide Overwrite;
    if compact {
      assert SlotBytes(compact, size, slot) == LE(size, slot.offset);
    } else {
      OverwriteTwice(out.buffer, out.position, LE(4, slot.id), LE(size, slot.offset));
      out.WriteInt32(slot.id);
    }
    if size == 1 {
      out.WriteInt8(slot.offset);
    } else if size == 2 {
      out.WriteInt16(slot.offset);
    } else {
      out.WriteInt32(slot.offset);
    }
  }

  // ------------------------------------------------------------------ writer

  // getTypeId: the type code that metadata records for a value.  A bool array has no case of its
  // own and counts as an object array.
  function TypeIdOf(v: Value): int32 {
    match v
    case Null => NULL_CODE
    case NullOf(code) => code
    case Scalar(p, _) => p.Code()
    case Unsigned(p, _) => p.Code()
    case ByteArray(_) => BYTE_ARRAY_CODE
    case PrimArray(p, _) => if p.PBool? then OBJECT_ARRAY_CODE else p.ArrayCode()
    case UnsignedArray(p, _) => p.ArrayCode()
    case LeafValue(l) => l.Kind().Code()
    case LeafArray(kind, _) => kind.ArrayCode()
    case ObjectArray(_) => OBJECT_ARRAY_CODE
    case Collection(_, _) => COLLECTION_CODE
    case Map(_, _) => MAP_CODE
    case Object(_) => BINARY_OBJECT_CODE
  }

  // The type code of a value is the one that it is written under, except for a bool array and for a nil
  // of a type, which is written as null.
  lemma TypeIdExact(v: Value)
    requires WellFormed(v)
    ensures Encode(v) != []
    ensures TypeIdOf(v) == Encode(v)[0] <==> !(v.PrimArray? && v.prim.PBool?) && !v.NullOf?
    ensures v.PrimArray? && v.prim.PBool? ==> TypeIdOf(v) == OBJECT_ARRAY_CODE && Encode(v)[0] == PBool.ArrayCode()
  {
    hide EncodeAll, EncodeEntries, EncodeLeaf, EncodeInts, EncodeString;
  }

  // The type recorded for a field: as given, else from the value, else as before.
  function FieldTypeId(given: int32, v: Value, known: Option<Metadata.FieldMeta>): int32 {
    if given >= 0 then given
    else if v != Null then TypeIdOf(v)
    else if known.Some? then known.value.typeId
    else BINARY_OBJECT_CODE
  }

  // When the type of a field is the type code that its value is written under: if it is given, when
  // it is given so; if it comes from a value, unless that is a bool array or a nil of a type; and if there is no value,
  // only when the field is known as null, for otherwise a field without value counts as an object.
  lemma RecordedTypeExact(given: int32, v: Value, known: Option<Metadata.FieldMeta>)
    requires WellFormed(v)
    ensures Encode(v) != []
    ensures FieldTypeId(given, v, known) == Encode(v)[0] <==>
      if given >= 0 then given == Encode(v)[0]
      else if v == Null then known.Some? && known.value.typeId == NULL_CODE
      else !(v.PrimArray? && v.prim.PBool?) && !v.NullOf?
  {
    hide TypeIdOf, Encode;
    TypeIdExact(v);
    NullCode();
  }

  lemma NullCode()
    ensures TypeIdOf(Null) == NULL_CODE && Encode(Null)[0] == NULL_CODE
  {
  }

  // A field whose recorded type differs from the one it would get now.
  predicate IsRefused(given: int32, v: Value, known: Option<Metadata.FieldMeta>) {
    known.Some? && FieldTypeId(given, v, known) != known.value.typeId
  }

  // A field that is first written without a value is recorded as a binary object, and from then on
  // takes no value but null and binary objects.
  lemma FirstNullRefusesValues(id: int32, v: Value)
    ensures FieldTypeId(-1, Null, None) == BINARY_OBJECT_CODE
    ensures IsRefused(-1, v, Some(Metadata.FieldMeta(BINARY_OBJECT_CODE, id))) <==>
      !v.Null? && !v.Object? && v != NullOf(BINARY_OBJECT_CODE)
  {
  }

  // What a field that was added is taken for: values of the same type, given or found, and no others, and
  // a nil always.
  lemma AddedFieldTakes(m: Metadata.Meta, name: Name, given: int32, first: Value, id: int32, again: int32, v: Value)
    requires m.body.Fields?
    ensures var typeId := FieldTypeId(given, first, None);
      var known := Known(Some(AddedField(m, name, typeId, id)), name);
      && (again < 0 && v == Null ==> !IsRefused(again, v, known))
      && (again >= 0 ==> (IsRefused(again, v, known) <==> again != typeId))
      && (again < 0 && given < 0 && v != Null && first != Null ==>
            (IsRefused(again, v, known) <==> TypeIdOf(v) != TypeIdOf(first)))
    ensures forall other :: other != name ==> Known(Some(AddedField(m, name, given, id)), other) == Known(Some(m), other)
  {
    hide TypeIdOf;
  }

  function Known(oldMeta: Option<Metadata.Meta>, name: Name): Option<Metadata.FieldMeta> {
    if oldMeta.Some? && oldMeta.value.body.Fields? && name in oldMeta.value.body.fields
    then Some(oldMeta.value.body.fields[name]) else None
  }

  // Replacing a part of what was written at pos.
  lemma Patch(base: seq<byte>, pos: nat, data: seq<byte>, k: nat, x: seq<byte>)
    requires k + |x| <= |data|
    ensures Overwrite(Overwrite(base, pos, data), pos + k, x) == Overwrite(base, pos, data[..k] + x + data[k + |x|..])
  {
    var once := Overwrite(base, pos, data);
    var patched := data[..k] + x + data[k + |x|..];
    var l, r := Overwrite(once, pos + k, x), Overwrite(base, pos, patched);
    assert |l| == |r| == |once|;
    assert once[pos..pos + |data|] == data && r[pos..pos + |data|] == patched;
    forall i | 0 <= i < |l| ensures l[i] == r[i] {
      if pos <= i < pos + |data| {
        assert once[i] == data[i - pos] && r[i] == patched[i - pos];
      }
    }
  }

  // The schema flag is set with the first field that a writer is given, even if it is refused.
  function WriterFlags(compact: bool, hasSchema: bool, slots: seq<Slot>): nat {
    Flags(compact, slots) + (if hasSchema && slots == [] then HAS_SCHEMA else 0)
  }

  // What a writer with these slots and values leaves behind.
  function FinishedBytes(compact: bool, hasSchema: bool, typeId: int32, typeName: Name, slots: seq<Slot>,
                         values: seq<Value>): seq<byte>
  {
    var body := ObjectBody(typeId, typeName, values);
    var footer := Footer(compact, OffsetSize(slots), slots);
    FrontBytes(WriterFlags(compact, hasSchema, slots), typeId) + LE(4, SliceHash(body))
    + BackBytes(HEADER_LENGTH + |body + footer|, SchemaIds.SchemaId(Ids(slots)), HEADER_LENGTH + |body|)
    + body + footer
  }

  // With a field, or with none that was refused, these are the object's bytes.
  lemma FinishedIsObject(compact: bool, hasSchema: bool, typeId: int32, typeName: Name, slots: seq<Slot>, values: seq<Value>)
    requires |slots| == |values| && HEADER_LENGTH + |ObjectBody(typeId, typeName, values)| <= MAX_INT32
    requires slots == SlotsFrom(HEADER_LENGTH + |ClassName(typeId, typeName)|, Ids(slots), values)
    requires slots == [] ==> !hasSchema
    ensures FinishedBytes(compact, hasSchema, typeId, typeName, slots, values)
      == ObjectBytes(compact, typeId, typeName, Ids(slots), values)
  {
    hide FrontBytes, BackBytes, Footer, ObjectBody, SliceHash, LE, SlotsFrom, ClassName, Flags, SchemaIds.SchemaId;
  }

  // The header is patched in three parts, the hash between the other two last.
  lemma PatchedHeader(header: seq<byte>, body: seq<byte>, footer: seq<byte>, front: seq<byte>, hash: seq<byte>, back: seq<byte>)
    requires |header| == HEADER_LENGTH && |front| == 8 && |hash| == 4 && |back| == 12
    ensures var d := PatchedFront(header + (body + footer), front, back);
      && d[..HASH_POS] + hash + d[HASH_POS + 4..] == front + hash + back + body + footer
      && d[HEADER_LENGTH..HEADER_LENGTH + |body|] == body
  {
    var rest := body + footer;
    var d := PatchedFront(header + rest, front, back);
    assert d[HEADER_LENGTH..] == rest;
    assert d[..HASH_POS] == front && d[HASH_POS + 4..] == back + rest;
    assert d[HEADER_LENGTH..HEADER_LENGTH + |body|] == d[HEADER_LENGTH..][..|body|] == body;
  }

  // newBinaryWriterImpl's work on the stream: room for the header, then the class name.
  method ReserveHeader(out: OutputStream, typeId: int32, typeName: Name)
    returns (start: nat, offset: nat, ghost header: seq<byte>)
    requires out.position + HEADER_LENGTH + |ClassName(typeId, typeName)| <= MAX_INT32
    modifies out
    ensures start == old(out.position) && offset == HEADER_LENGTH + |ClassName(typeId, typeName)|
    ensures |header| == HEADER_LENGTH
    ensures Wrote(out, old(out.buffer), start, header + ClassName(typeId, typeName))
  {
    hide Overwrite, EncodeString, Grow, LE;
    ghost var buf, pos := out.buffer, out.position;
    out.EnsureAvailable(HEADER_LENGTH);
    start := out.position;
    out.SetPosition(start + HEADER_LENGTH);
    header := Grow(buf, pos + HEADER_LENGTH)[pos..pos + HEADER_LENGTH];
    ReserveIsWrite(buf, pos, HEADER_LENGTH);
    offset := HEADER_LENGTH;
    if typeId == UNREGISTERED_CODE {
      OverwriteTwice(buf, pos, header, ClassName(typeId, typeName));
      MarshalString(out, typeName);
      offset := out.position - start;
    } else {
      assert header + [] == header;
    }
  }

  lemma NoBody(typeId: int32, typeName: Name)
    ensures ObjectBody(typeId, typeName, []) == ClassName(typeId, typeName)
    ensures AllWellFormed([])
  {
  }

  // The flags as they are set on the way: at the start, with the first field, with the footer.
  method CompleteFlags(compact: bool, hasSchema: bool, size: nat) returns (flags: nat)
    requires size in {0, 1, 2, 4} && (size > 0 ==> hasSchema)
    ensures forall slots: seq<Slot> ::
      size == (if slots == [] then 0 else OffsetSize(slots)) ==> flags == WriterFlags(compact, hasSchema, slots)
  {
    flags := SetFlag(0, USER_TYPE);
    if compact {
      flags := SetFlag(flags, COMPACT_FOOTER);
    }
    if hasSchema {
      flags := SetFlag(flags, HAS_SCHEMA);
      if size == 1 {
        flags := SetFlag(flags, OFFSET_ONE_BYTE);
      } else if size == 2 {
        flags := SetFlag(flags, OFFSET_TWO_BYTES);
      }
    }
  }

  // The stream of an unfinished object: on top of `base`, the reserved header and the fields so far.
  ghost predicate Laid(buf: seq<byte>, pos: nat, base: seq<byte>, start: nat, reserved: seq<byte>,
                       typeId: int32, typeName: Name, slots: seq<Slot>, values: seq<Value>)
  {
    && |reserved| == HEADER_LENGTH
    && |slots| == |values| && AllWellFormed(values)
    && buf == Overwrite(base, start, reserved + ObjectBody(typeId, typeName, values))
    && pos == start + HEADER_LENGTH + |ObjectBody(typeId, typeName, values)|
    && pos <= start + MAX_INT32
    && slots == SlotsFrom(HEADER_LENGTH + |ClassName(typeId, typeName)|, Ids(slots), values)
  }

  lemma LaidAppend(buf: seq<byte>, pos: nat, base: seq<byte>, start: nat, reserved: seq<byte>,
                   typeId: int32, typeName: Name, slots: seq<Slot>, values: seq<Value>, id: int32, value: Value)
    requires Laid(buf, pos, base, start, reserved, typeId, typeName, slots, values) && start <= pos
    requires WellFormed(value) && pos + |Encode(value)| <= MAX_INT32
    ensures Laid(Overwrite(buf, pos, Encode(value)), pos + |Encode(value)|, base, start, reserved, typeId, typeName,
                 slots + [Slot(id, pos - start)], values + [value])
  {
    hide Overwrite, ClassName, EncodeAll, ObjectBody, Encode, WellFormed, AllWellFormed, SlotsFrom;
    var body := ObjectBody(typeId, typeName, values);
    FieldAppended(typeId, typeName, Ids(slots), values, id, value);
    OverwriteTwice(base, start, reserved + body, Encode(value));
    assert reserved + body + Encode(value) == reserved + (body + Encode(value));
    assert Ids(slots + [Slot(id, pos - start)]) == Ids(slots) + [id];
  }

  class BinaryWriter {
    const out: OutputStream
    const compact: bool
    const oldMeta: Option<Metadata.Meta>
    const fieldId: Name -> int32   // the id mapper
    var newMeta: Metadata.Meta
    var schemaBld: SchemaBuilder
    var startPos: nat
    var offset: nat
    var hasSchema: bool
    ghost const base: seq<byte>    // the stream before the object
    ghost const reserved: seq<byte> // what stands in the header's place so far
    ghost var values: seq<Value>

    ghost predicate Valid()
      reads this, out, schemaBld
    {
      && schemaBld.Valid()
      && newMeta.body.Fields?
      && (values != [] ==> hasSchema)
      && (values == [] ==> offset == HEADER_LENGTH + |ClassName(newMeta.typeId, newMeta.typeName)|)
      && Laid(out.buffer, out.position, base, startPos, reserved, newMeta.typeId, newMeta.typeName,
              schemaBld.data, values)
    }

    constructor (out: OutputStream, compact: bool, fieldId: Name -> int32, newMeta: Metadata.Meta, oldMeta: Option<Metadata.Meta>)
      requires newMeta.body.Fields?
      requires out.position + HEADER_LENGTH + |ClassName(newMeta.typeId, newMeta.typeName)| <= MAX_INT32
      modifies out
      ensures Valid() && fresh(schemaBld) && values == [] && !hasSchema
      ensures this.out == out && this.compact == compact && this.fieldId == fieldId && this.oldMeta == oldMeta
      ensures this.newMeta == newMeta && base == old(out.buffer) && startPos == old(out.position)
    {
      ghost var buf := out.buffer;
      var start, off, header := ReserveHeader(out, newMeta.typeId, newMeta.typeName);
      var bld := new SchemaBuilder();
      this.out, this.compact, this.oldMeta, this.fieldId := out, compact, oldMeta, fieldId;
      this.newMeta, schemaBld, startPos, offset, hasSchema := newMeta, bld, start, off, false;
      base, reserved, values := buf, header, [];
      NoBody(newMeta.typeId, newMeta.typeName);
      new;
      hide Overwrite, ClassName, EncodeAll, ObjectBody;
      assert AllWellFormed([]);
    }

    // Records the field and marshals its value.
    method WriteField0(name: Name, given: int32, value: Value) returns (r: Result<()>)
      requires Valid() && WellFormed(value) && out.position + |Encode(value)| <= MAX_INT32
      modifies this, out, schemaBld
      ensures Valid() && startPos == old(startPos) && schemaBld == old(schemaBld) && hasSchema
      ensures newMeta.typeId == old(newMeta.typeId) && newMeta.typeName == old(newMeta.typeName)
      ensures var known := Known(oldMeta, name);
        var typeId := FieldTypeId(given, value, known);
        if IsRefused(given, value, known) then
          r == Err(FieldTypeMismatch) && values == old(values) && newMeta == old(newMeta)
          && schemaBld.data == old(schemaBld.data)
        else
          r == Ok(()) && values == old(values) + [value]
          && Ids(schemaBld.data) == Ids(old(schemaBld.data)) + [fieldId(name)]
          && newMeta == if known.Some? then old(newMeta) else AddedField(old(newMeta), name, typeId, fieldId(name))
    {
      hide Laid, Encode, WellFormed;
      if !hasSchema {
        hasSchema := true;
      }
      var known := Known(oldMeta, name);
      var typeId := FieldTypeId(given, value, known);
      if known.Some? && typeId != known.value.typeId {
        return Err(FieldTypeMismatch);
      }
      if known.None? {
        newMeta := AddedField(newMeta, name, typeId, fieldId(name));
      }
      AppendValue(fieldId(name), value);
      return Ok(());
    }

    // Notes the offset of the next field and marshals its value there.
    method AppendValue(id: int32, value: Value)
      requires Valid() && hasSchema && WellFormed(value) && out.position + |Encode(value)| <= MAX_INT32
      modifies this`values, out, schemaBld
      ensures Valid() && values == old(values) + [value]
      ensures Ids(schemaBld.data) == Ids(old(schemaBld.data)) + [id]
    {
      hide Overwrite, ClassName, Encode, WellFormed, SchemaIds.Fold;
      assert startPos + HEADER_LENGTH <= out.position <= startPos + MAX_INT32;
      hide Laid;
      LaidAppend(out.buffer, out.position, base, startPos, reserved, newMeta.typeId, newMeta.typeName,
                 schemaBld.data, values, id, value);
      schemaBld.AddField(id, out.position - startPos);
      Marshal(out, value);
      values := values + [value];
    }

    // The finished object: what finalize leaves behind.
    ghost function Bytes(): seq<byte>
      requires Valid()
      reads this, out, schemaBld
    {
      FinishedBytes(compact, hasSchema, newMeta.typeId, newMeta.typeName, schemaBld.data, values)
    }

    // Writes the footer and completes the flags.
    method FinishFooter() returns (flags: nat)
      requires Valid()
      requires out.position + |Footer(compact, OffsetSize(schemaBld.data), schemaBld.data)| <= MAX_INT32
      modifies this`offset, out
      ensures flags == WriterFlags(compact, hasSchema, schemaBld.data)
      ensures var body := ObjectBody(newMeta.typeId, newMeta.typeName, values);
        offset == HEADER_LENGTH + |body|
        && Wrote(out, base, startPos, reserved + (body + Footer(compact, OffsetSize(schemaBld.data), schemaBld.data)))
    {
      hide Overwrite, ClassName, EncodeAll, ObjectBody, AllWellFormed, SlotsFrom, SchemaIds.Fold, Footer;
      ghost var slots := schemaBld.data;
      ghost var body := ObjectBody(newMeta.typeId, newMeta.typeName, values);
      ghost var footer := Footer(compact, OffsetSize(slots), slots);
      assert reserved + body + footer == reserved + (body + footer);
      var size := 0;
      if hasSchema {
        offset := out.position - startPos;
        OverwriteTwice(base, startPos, reserved + body, footer);
        size := schemaBld.WriteFooter(out, compact);
      } else {
        NoFooter(compact, OffsetSize(slots));
        NoBody(newMeta.typeId, newMeta.typeName);
        assert reserved + body == reserved + (body + footer);
      }
      flags := CompleteFlags(compact, hasSchema, size);
    }

    // Writes the footer, goes back to fill in the header, and returns to the end of the object.
    // `put` is the outcome of storing the metadata; when that fails the object is left unfinished.
    method Finalize(put: Result<()>) returns (r: Result<()>, schemaId: int32, fieldIds: seq<int32>)
      requires Valid()
      requires out.position + |Footer(compact, OffsetSize(schemaBld.data), schemaBld.data)| <= MAX_INT32
      modifies this, out
      ensures fieldIds == Ids(schemaBld.data) && schemaId == SchemaIds.SchemaId(fieldIds)
      ensures newMeta == WithSchema(old(newMeta), schemaId, fieldIds)
      ensures r == put
      ensures put.Ok? ==> Wrote(out, base, startPos, old(Bytes()))
      ensures startPos == old(startPos) && values == old(values) && schemaBld == old(schemaBld)
    {
      hide Overwrite, Grow, LE, ClassName, ObjectBody, AllWellFormed, SlotsFrom, SchemaIds.Fold,
           SchemaIds.SchemaId, Footer, WriterFlags, FrontBytes, BackBytes, PatchedFront;
      ghost var slots, typeId := schemaBld.data, newMeta.typeId;
      ghost var body := ObjectBody(typeId, newMeta.typeName, values);
      assert startPos + HEADER_LENGTH <= out.position;
      hide Laid;
      var flags := FinishFooter();
      schemaId, fieldIds := schemaBld.Build();
      var retPos := out.position;
      newMeta := WithSchema(newMeta, schemaId, fieldIds);
      FillIn(out, startPos, flags, newMeta.typeId, retPos - startPos, schemaId, offset, put.Ok?, base, reserved, body,
             Footer(compact, OffsetSize(slots), slots));
      if put.Ok? {
        out.SetPosition(retPos);
      }
      return put, schemaId, fieldIds;
    }
  }

  // Type code to type id, then length, schema id and footer position; the hash is still missing.
  function PatchedFront(data: seq<byte>, front: seq<byte>, back: seq<byte>): (r: seq<byte>)
    requires |data| >= HEADER_LENGTH && |front| == 8 && |back| == 12
    ensures |r| == |data| && r[HEADER_LENGTH..] == data[HEADER_LENGTH..]
  {
    var d := front + data[8..];
    d[..12] + back + d[24..]
  }

  method FillHeader(out: OutputStream, start: nat, flags: nat, typeId: int32, length: nat, schemaId: int32, offset: nat,
                    ghost base: seq<byte>, ghost header: seq<byte>, ghost rest: seq<byte>)
    requires |header| == HEADER_LENGTH && out.buffer == Overwrite(base, start, header + rest)
    requires start + HEADER_LENGTH <= MAX_INT32
    modifies out
    ensures out.buffer == Overwrite(base, start,
      PatchedFront(header + rest, FrontBytes(flags, typeId), BackBytes(length, schemaId, offset)))
  {
    hide Overwrite;
    ghost var front, back := FrontBytes(flags, typeId), BackBytes(length, schemaId, offset);
    Patch(base, start, header + rest, 0, front);
    ghost var d := front + (header + rest)[8..];
    assert (header + rest)[..0] + front + (header + rest)[8..] == d;
    Patch(base, start, d, LENGTH_POS, back);
    out.SetPosition(start);
    WriteHeaderFront(out, flags, typeId);
    out.SetPosition(start + LENGTH_POS);
    WriteHeaderBack(out, length, schemaId, offset);
  }

  method FillHash(out: OutputStream, start: nat, offset: nat, ghost base: seq<byte>, ghost data: seq<byte>, ghost body: seq<byte>)
    requires out.buffer == Overwrite(base, start, data) && start + HEADER_LENGTH <= MAX_INT32
    requires HEADER_LENGTH + |body| == offset <= |data| && data[HEADER_LENGTH..offset] == body
    modifies out
    ensures out.buffer == Overwrite(base, start, data[..HASH_POS] + LE(4, SliceHash(body)) + data[HASH_POS + 4..])
  {
    hide Overwrite, SliceHash;
    WrittenSlice(base, start, data, HEADER_LENGTH, offset);
    var hash := out.HashCode(start + HEADER_LENGTH, start + offset);
    Patch(base, start, data, HASH_POS, LE(4, hash));
    out.SetPosition(start + HASH_POS);
    out.WriteInt32(hash);
  }

  // Goes back and fills in the header, the hash only once the metadata is stored.
  method FillIn(out: OutputStream, start: nat, flags: nat, typeId: int32, length: nat, schemaId: int32, offset: nat,
                put: bool, ghost base: seq<byte>, ghost header: seq<byte>, ghost body: seq<byte>, ghost footer: seq<byte>)
    requires |header| == HEADER_LENGTH && out.buffer == Overwrite(base, start, header + (body + footer))
    requires start + HEADER_LENGTH <= MAX_INT32 && offset == HEADER_LENGTH + |body|
    modifies out
    ensures put ==> out.buffer == Overwrite(base, start,
      FrontBytes(flags, typeId) + LE(4, SliceHash(body)) + BackBytes(length, schemaId, offset) + body + footer)
  {
    hide Overwrite, FrontBytes, BackBytes, PatchedFront, SliceHash, LE;
    ghost var front, back := FrontBytes(flags, typeId), BackBytes(length, schemaId, offset);
    FillHeader(out, start, flags, typeId, length, schemaId, offset, base, header, body + footer);
    PatchedHeader(header, body, footer, front, LE(4, SliceHash(body)), back);
    if put {
      FillHash(out, start, offset, base, PatchedFront(header + (body + footer), front, back), body);
    }
  }

  // What was written can be read off the buffer.
  lemma WrittenSlice(base: seq<byte>, pos: nat, data: seq<byte>, i: nat, j: nat)
    requires i <= j <= |data|
    ensures pos + |data| <= |Overwrite(base, pos, data)|
    ensures Overwrite(base, pos, data)[pos + i..pos + j] == data[i..j]
  {
    var b := Overwrite(base, pos, data);
    assert b[pos..pos + |data|] == data;
    assert b[pos + i..pos + j] == b[pos..pos + |data|][i..j];
  }

  method WriteHeaderFront(out: OutputStream, flags: nat, typeId: int32)
    requires out.position + 8 <= MAX_INT32
    modifies out
    ensures Wrote(out, old(out.buffer), old(out.position),
                  FrontBytes(flags, typeId))
  {
    hide Overwrite;
    ghost var buf, pos := out.buffer, out.position;
    OverwriteTwice(buf, pos, LE(1, BINARY_OBJECT_CODE), LE(1, PROTO_VERSION));
    OverwriteTwice(buf, pos, LE(1, BINARY_OBJECT_CODE) + LE(1, PROTO_VERSION), LE(2, flags));
    OverwriteTwice(buf, pos, LE(1, BINARY_OBJECT_CODE) + LE(1, PROTO_VERSION) + LE(2, flags), LE(4, typeId));
    out.WriteInt8(BINARY_OBJECT_CODE);
    out.WriteInt8(PROTO_VERSION);
    out.WriteInt16(flags);
    out.WriteInt32(typeId);
  }

  method WriteHeaderBack(out: OutputStream, length: nat, schemaId: int32, offset: nat)
    requires out.position + 12 <= MAX_INT32
    modifies out
    ensures Wrote(out, old(out.buffer), old(out.position), BackBytes(length, schemaId, offset))
  {
    hide Overwrite;
    ghost var buf, pos := out.buffer, out.position;
    OverwriteTwice(buf, pos, LE(4, length), LE(4, schemaId));
    OverwriteTwice(buf, pos, LE(4, length) + LE(4, schemaId), LE(4, offset));
    out.WriteInt32(length);
    out.WriteInt32(schemaId);
    out.WriteInt32(offset);
  }

  // addField
  function AddedField(m: Metadata.Meta, name: Name, typeId: int32, id: int32): Metadata.Meta
    requires m.body.Fields?
  {
    m.(body := m.body.(fields := m.body.fields[name := Metadata.FieldMeta(typeId, id)],
                       order := m.body.order + [name]))
  }

  // addSchema
  function WithSchema(m: Metadata.Meta, schemaId: int32, fieldIds: seq<int32>): Metadata.Meta
    requires m.body.Fields?
  {
    m.(body := m.body.(schemas := m.body.schemas[schemaId := fieldIds]))
  }

  lemma EncodeAllLast(values: seq<Value>, value: Value)
    ensures EncodeAll(values + [value]) == EncodeAll(values) + Encode(value)
  {
    hide Encode, EncodeAll;
    var vs := values + [value];
    EncodeAllSnoc(vs, |values|);
    assert vs[..|values| + 1] == vs && vs[..|values|] == values;
  }

  lemma SlotsCons(offset: nat, ids: seq<int32>, values: seq<Value>)
    requires |ids| == |values| && offset + |EncodeAll(values)| <= MAX_INT32 && ids != []
    ensures |EncodeAll(values)| == |Encode(values[0])| + |EncodeAll(values[1..])|
    ensures SlotsFrom(offset, ids, values)
      == [Slot(ids[0], offset)] + SlotsFrom(offset + |Encode(values[0])|, ids[1..], values[1..])
  {
    hide Encode;
  }

  lemma {:induction false} SlotsSnoc(offset: nat, ids: seq<int32>, values: seq<Value>, id: int32, value: Value)
    requires |ids| == |values| && offset + |EncodeAll(values + [value])| <= MAX_INT32
    ensures EncodeAll(values + [value]) == EncodeAll(values) + Encode(value)
    ensures SlotsFrom(offset, ids + [id], values + [value])
      == SlotsFrom(offset, ids, values) + [Slot(id, offset + |EncodeAll(values)|)]
    decreases |ids|
  {
    EncodeAllLast(values, value);
    if ids == [] {
      hide Encode;
      assert [value][1..] == [] && [id][1..] == [];
    } else {
      hide Encode, EncodeAll, SlotsFrom;
      assert (ids + [id])[1..] == ids[1..] + [id];
      assert (values + [value])[1..] == values[1..] + [value];
      SlotsCons(offset, ids + [id], values + [value]);
      SlotsCons(offset, ids, values);
      SlotsSnoc(offset + |Encode(values[0])|, ids[1..], values[1..], id, value);
    }
  }

  lemma {:induction false} AllWellFormedSnoc(vs: seq<Value>, v: Value)
    requires AllWellFormed(vs) && WellFormed(v)
    ensures AllWellFormed(vs + [v])
  {
    hide WellFormed;
    if vs != [] {
      AllWellFormedSnoc(vs[1..], v);
      assert (vs + [v])[1..] == vs[1..] + [v];
    } else {
      assert [v][1..] == [];
    }
  }

  // What one more field adds to body and slots.
  lemma FieldAppended(typeId: int32, typeName: Name, ids: seq<int32>, values: seq<Value>, id: int32, value: Value)
    requires |ids| == |values| && AllWellFormed(values) && WellFormed(value)
    requires HEADER_LENGTH + |ObjectBody(typeId, typeName, values)| + |Encode(value)| <= MAX_INT32
    ensures ObjectBody(typeId, typeName, values + [value]) == ObjectBody(typeId, typeName, values) + Encode(value)
    ensures AllWellFormed(values + [value])
    ensures var start := HEADER_LENGTH + |ClassName(typeId, typeName)|;
      SlotsFrom(start, ids + [id], values + [value])
        == SlotsFrom(start, ids, values) + [Slot(id, HEADER_LENGTH + |ObjectBody(typeId, typeName, values)|)]
  {
    hide Encode, EncodeAll, ClassName, WellFormed, AllWellFormed, SlotsFrom;
    var vs := values + [value];
    EncodeAllSnoc(vs, |values|);
    assert vs[..|values| + 1] == vs && vs[..|values|] == values;
    SlotsSnoc(HEADER_LENGTH + |ClassName(typeId, typeName)|, ids, values, id, value);
    AllWellFormedSnoc(values, value);
    assert ClassName(typeId, typeName) + (EncodeAll(values) + Encode(value))
      == ClassName(typeId, typeName) + EncodeAll(values) + Encode(value);
  }

  // Skipping reserved bytes leaves the stream as if they had been written over themselves.
  lemma ReserveIsWrite(buf: seq<byte>, pos: nat, n: nat)
    ensures Grow(buf, pos + n) == Overwrite(buf, pos, Grow(buf, pos + n)[pos..pos + n])
  {
    var g := Grow(buf, pos + n);
    assert g == g[..pos] + g[pos..pos + n] + g[pos + n..];
  }
}
