// The byte layout of a binary object, and finding a field in it (binary_object.go).
module ObjectLayout {
  import opened Wrappers
  import opened Bytes
  import opened Streams
  import opened Scalars
  import opened Values
  import opened Codec
  import opened RoundTrip
  import SchemaIds

  const PROTO_VERSION := 1
  const FLAGS_POS := 2
  const HASH_POS := 8
  const SCHEMA_ID_POS := 16
  const SCHEMA_OFFSET_POS := 20

  // Flags are powers of two.
  const USER_TYPE := 0x01
  const HAS_SCHEMA := 0x02
  const HAS_RAW := 0x04
  const OFFSET_ONE_BYTE := 0x08
  const OFFSET_TWO_BYTES := 0x10
  const COMPACT_FOOTER := 0x20

  predicate HasFlag(flags: nat, flag: nat)
    requires flag > 0
  {
    flags / flag % 2 == 1
  }

  function SetFlag(flags: nat, flag: nat): nat
    requires flag > 0
  {
    if HasFlag(flags, flag) then flags else flags + flag
  }

  // ------------------------------------------------------------------ layout

  // A field id and the offset of its value from the start of the object.
  datatype Slot = Slot(id: int32, offset: int32)

  function Ids(slots: seq<Slot>): (r: seq<int32>)
    ensures |r| == |slots| && forall i :: 0 <= i < |slots| ==> r[i] == slots[i].id
  {
    seq(|slots|, i requires 0 <= i < |slots| => slots[i].id)
  }

  // The class name that follows the header of an object of an unregistered type.
  function ClassName(typeId: int32, typeName: seq<byte>): seq<byte> {
    if typeId == UNREGISTERED_CODE then LE(1, STRING_CODE) + EncodeString(typeName) else []
  }

  // Bytes of an offset, chosen by the last one.
  function OffsetSize(slots: seq<Slot>): (size: nat)
    ensures size in {1, 2, 4}
  {
    if slots == [] then 4
    else
      var last := slots[|slots| - 1].offset;
      if last < 0x100 then 1 else if last < 0x1_0000 then 2 else 4
  }

  function SlotBytes(compact: bool, size: nat, slot: Slot): (s: seq<byte>)
    ensures |s| == Stride(compact, size)
  {
    (if compact then [] else LE(4, slot.id)) + LE(size, slot.offset)
  }

  function Stride(compact: bool, size: nat): nat {
    (if compact then 0 else 4) + size
  }

  function Footer(compact: bool, size: nat, slots: seq<Slot>): seq<byte> {
    if slots == [] then []
    else SlotBytes(compact, size, slots[0]) + Footer(compact, size, slots[1..])
  }

  lemma {:induction false} FooterLength(compact: bool, size: nat, slots: seq<Slot>)
    ensures |Footer(compact, size, slots)| == |slots| * Stride(compact, size)
  {
    hide SlotBytes, Stride;
    if slots != [] {
      FooterLength(compact, size, slots[1..]);
      assert |slots| * Stride(compact, size) == Stride(compact, size) + (|slots| - 1) * Stride(compact, size);
    }
  }

  function Flags(compact: bool, slots: seq<Slot>): nat {
    USER_TYPE
    + (if compact then COMPACT_FOOTER else 0)
    + (if slots == [] then 0 else HAS_SCHEMA)
    + (if slots == [] then 0
       else if OffsetSize(slots) == 1 then OFFSET_ONE_BYTE
       else if OffsetSize(slots) == 2 then OFFSET_TWO_BYTES else 0)
  }

  function Header(compact: bool, typeId: int32, body: seq<byte>, slots: seq<Slot>): (s: seq<byte>)
    ensures |s| == HEADER_LENGTH
  {
    HeaderFront(compact, typeId, slots) + LE(4, SliceHash(body)) + HeaderBack(compact, body, slots)
  }

  function HeaderFront(compact: bool, typeId: int32, slots: seq<Slot>): (s: seq<byte>)
    ensures |s| == 8
  {
    FrontBytes(Flags(compact, slots), typeId)
  }

  function FrontBytes(flags: nat, typeId: int32): (s: seq<byte>)
    ensures |s| == 8
  {
    LE(1, BINARY_OBJECT_CODE) + LE(1, PROTO_VERSION) + LE(2, flags) + LE(4, typeId)
  }

  // Total length, schema id and footer position.
  function HeaderBack(compact: bool, body: seq<byte>, slots: seq<Slot>): (s: seq<byte>)
    ensures |s| == 12
  {
    BackBytes(HEADER_LENGTH + |body| + |Footer(compact, OffsetSize(slots), slots)|,
              SchemaIds.SchemaId(Ids(slots)), HEADER_LENGTH + |body|)
  }

  function BackBytes(length: nat, schemaId: int32, offset: nat): (s: seq<byte>)
    ensures |s| == 12
  {
    LE(4, length) + LE(4, schemaId) + LE(4, offset)
  }

  // Class name and field values.
  function ObjectBody(typeId: int32, typeName: seq<byte>, values: seq<Value>): seq<byte> {
    ClassName(typeId, typeName) + EncodeAll(values)
  }

  // The slots of fields written one after the other from `offset` on.
  function SlotsFrom(offset: nat, ids: seq<int32>, values: seq<Value>): (slots: seq<Slot>)
    requires |ids| == |values| && offset + |EncodeAll(values)| <= MAX_INT32
    ensures |slots| == |ids|
    decreases |ids|
  {
    if ids == [] then []
    else [Slot(ids[0], offset)] + SlotsFrom(offset + |Encode(values[0])|, ids[1..], values[1..])
  }

  // A finished object.
  function ObjectBytes(compact: bool, typeId: int32, typeName: seq<byte>, ids: seq<int32>, values: seq<Value>): seq<byte>
    requires |ids| == |values|
    requires HEADER_LENGTH + |ObjectBody(typeId, typeName, values)| <= MAX_INT32
  {
    var body := ObjectBody(typeId, typeName, values);
    var slots := SlotsFrom(HEADER_LENGTH + |ClassName(typeId, typeName)|, ids, values);
    Header(compact, typeId, body, slots) + body + Footer(compact, OffsetSize(slots), slots)
  }

  // ------------------------------------------------------------------ lookup

  function FlagsOf(data: seq<byte>): nat {
    if |data| < HEADER_LENGTH then 0 else UIntAt(data, FLAGS_POS, 2)
  }

  // The footer and the size of its offsets.
  function FooterOf(data: seq<byte>): Result<(seq<byte>, nat)>
    requires |data| >= HEADER_LENGTH
  {
    var flags := FlagsOf(data);
    var size := if HasFlag(flags, OFFSET_ONE_BYTE) then 1 else if HasFlag(flags, OFFSET_TWO_BYTES) then 2 else 4;
    var start := UIntAt(data, SCHEMA_OFFSET_POS, 4);
    var end := if HasFlag(flags, HAS_RAW) then |data| - 4 else |data|;
    if start <= end then Ok((data[start..end], size)) else Err(Panic)
  }

  // The last index of an id, or -1.
  function LastIndex(ids: seq<int32>, id: int32): (i: int)
    ensures -1 <= i < |ids|
    ensures i == -1 <==> id !in ids
    ensures i >= 0 ==> ids[i] == id && forall j :: i < j < |ids| ==> ids[j] != id
  {
    if ids == [] then -1
    else if ids[|ids| - 1] == id then |ids| - 1
    else LastIndex(ids[..|ids| - 1], id)
  }

  function FirstIndex(ids: seq<int32>, id: int32): (i: int)
    ensures -1 <= i < |ids|
    ensures i == -1 <==> id !in ids
    ensures i >= 0 ==> ids[i] == id && forall j :: 0 <= j < i ==> ids[j] != id
  {
    if ids == [] then -1
    else if ids[0] == id then 0
    else
      var rest := FirstIndex(ids[1..], id);
      assert ids == [ids[0]] + ids[1..];
      if rest == -1 then -1 else rest + 1
  }

  // Scans a footer with field ids; the position of the offset, or None.
  function FindSlot(footer: seq<byte>, size: nat, id: int32, pos: nat): Result<Option<nat>>
    decreases |footer| - pos
  {
    if pos >= |footer| then Ok(None)
    else if pos + 4 > |footer| then Err(Panic)
    else if Int32At(footer, pos) == id then Ok(Some(pos + 4))
    else FindSlot(footer, size, id, pos + 4 + size)
  }

  // Where the footer keeps the offset of a field.  None: the object has no such field.
  function OffsetPosition(compact: bool, footer: seq<byte>, size: nat, schema: Option<seq<int32>>, id: int32):
    Result<Option<nat>>
  {
    if !compact then FindSlot(footer, size, id, 0)
    else if schema.None? then Err(SchemaNotFound)
    else
      var i := LastIndex(schema.value, id);
      Ok(if i == -1 then None else Some(i * size))
  }

  // The value of the field with the given id; absent fields are null.  `schema` is what the
  // registry knows for the object's schema id.
  function LookupField(data: seq<byte>, schema: Option<seq<int32>>, id: int32): Result<Value> {
    var flags := FlagsOf(data);
    if !HasFlag(flags, HAS_SCHEMA) then Ok(Null)
    else if !TypeIdResolves(data) then Err(CorruptedObject)
    else
      match FooterOf(data)
      case Err(e) => Err(e)
      case Ok((footer, size)) =>
        match OffsetPosition(HasFlag(flags, COMPACT_FOOTER), footer, size, schema, id)
        case Err(e) => Err(e)
        case Ok(None) => Ok(Null)
        case Ok(Some(at)) =>
          if at + size > |footer| then Err(Panic)
          else
            match Decode(data, UIntAt(footer, at, size))
            case Ok(read) => Ok(read.value)
            case Err(e) => Err(e)
  }

  // ------------------------------------------------------------------ proofs

  lemma FlagsRead(compact: bool, slots: seq<Slot>)
    ensures var f := Flags(compact, slots);
      && f < 0x1_0000
      && (HasFlag(f, COMPACT_FOOTER) <==> compact)
      && (HasFlag(f, HAS_SCHEMA) <==> slots != [])
      && !HasFlag(f, HAS_RAW)
      && (slots != [] ==>
        && (HasFlag(f, OFFSET_ONE_BYTE) <==> OffsetSize(slots) == 1)
        && (HasFlag(f, OFFSET_TWO_BYTES) <==> OffsetSize(slots) == 2))
  {
  }

  // Each slot's offset is where its value stands behind the header.
  lemma {:induction false} SlotsFromAt(offset: nat, ids: seq<int32>, values: seq<Value>, i: nat)
    requires |ids| == |values| && offset + |EncodeAll(values)| <= MAX_INT32 && i < |ids|
    ensures var slots := SlotsFrom(offset, ids, values);
      && slots[i].id == ids[i]
      && offset <= slots[i].offset
      && slots[i].offset + |Encode(values[i])| <= offset + |EncodeAll(values)|
      && EncodeAll(values)[slots[i].offset - offset..slots[i].offset - offset + |Encode(values[i])|] == Encode(values[i])
    decreases i
  {
    hide Encode;
    var head, rest := Encode(values[0]), EncodeAll(values[1..]);
    assert EncodeAll(values) == head + rest;
    if i == 0 {
      assert (head + rest)[0..|head|] == head;
    } else {
      SlotsFromAt(offset + |head|, ids[1..], values[1..], i - 1);
      var k := SlotsFrom(offset, ids, values)[i].offset - offset - |head|;
      SliceShift(head, rest, k, |Encode(values[i])|);
    }
  }

  lemma SliceShift(a: seq<byte>, b: seq<byte>, k: nat, n: nat)
    requires k + n <= |b|
    ensures (a + b)[|a| + k..|a| + k + n] == b[k..k + n]
  {
  }

  lemma AtShift(a: seq<byte>, b: seq<byte>, k: nat, data: seq<byte>)
    requires At(b, k, data)
    ensures At(a + b, |a| + k, data)
  {
    SliceShift(a, b, k, |data|);
  }

  // Offsets do not decrease, so the last one bounds them all.
  lemma {:induction false} OffsetsBounded(offset: nat, ids: seq<int32>, values: seq<Value>, i: nat)
    requires |ids| == |values| && offset + |EncodeAll(values)| <= MAX_INT32 && i < |ids|
    ensures var slots := SlotsFrom(offset, ids, values);
      offset <= slots[i].offset <= slots[|slots| - 1].offset
    decreases |ids|
  {
    hide Encode;
    SlotsFromAt(offset, ids, values, i);
    if |ids| > 1 {
      if i == 0 {
        SlotsFromAt(offset, ids, values, |ids| - 1);
      } else {
        OffsetsBounded(offset + |Encode(values[0])|, ids[1..], values[1..], i - 1);
      }
    }
  }

  // An offset truncated to the chosen size reads back unsigned as it was.
  lemma OffsetFits(offset: nat, ids: seq<int32>, values: seq<Value>, i: nat)
    requires |ids| == |values| && offset + |EncodeAll(values)| <= MAX_INT32 && i < |ids|
    ensures var slots := SlotsFrom(offset, ids, values);
      0 <= slots[i].offset < Pow256(OffsetSize(slots))
  {
    hide Encode;
    Widths();
    OffsetsBounded(offset, ids, values, i);
  }

  lemma {:induction false} FooterAt(compact: bool, size: nat, slots: seq<Slot>, i: nat)
    requires i < |slots|
    ensures (i + 1) * Stride(compact, size) <= |Footer(compact, size, slots)|
    ensures At(Footer(compact, size, slots), i * Stride(compact, size), SlotBytes(compact, size, slots[i]))
    decreases i
  {
    hide SlotBytes;
    var stride := Stride(compact, size);
    var head, rest := SlotBytes(compact, size, slots[0]), Footer(compact, size, slots[1..]);
    if i == 0 {
      assert (head + rest)[0..stride] == head;
    } else {
      hide Stride, At;
      FooterAt(compact, size, slots[1..], i - 1);
      assert i * stride == stride + (i - 1) * stride;
      assert (i + 1) * stride == stride + i * stride;
      AtShift(head, rest, (i - 1) * stride, SlotBytes(compact, size, slots[i]));
    }
  }

  lemma SlotIdAt(size: nat, slots: seq<Slot>, i: nat)
    requires i < |slots|
    ensures var footer := Footer(false, size, slots);
      i * (4 + size) + 4 <= |footer| && Int32At(footer, i * (4 + size)) == slots[i].id
  {
    hide Footer;
    var footer := Footer(false, size, slots);
    FooterAt(false, size, slots, i);
    AtSplit(footer, i * (4 + size), LE(4, slots[i].id), LE(size, slots[i].offset));
    Int32AtWritten(footer, i * (4 + size), slots[i].id);
  }

  // Scanning a footer with ids stops at the first slot of the id.
  lemma {:induction false} FindSlotFirst(size: nat, slots: seq<Slot>, id: int32, i: nat)
    requires i <= |slots| && forall j :: 0 <= j < i ==> slots[j].id != id
    ensures FindSlot(Footer(false, size, slots), size, id, i * (4 + size)) ==
      var first := FirstIndex(Ids(slots), id);
      Ok(if first == -1 then None else Some(first * (4 + size) + 4))
    decreases |slots| - i
  {
    hide Footer, Int32At;
    var first := FirstIndex(Ids(slots), id);
    if i == |slots| {
      FooterLength(false, size, slots);
    } else {
      SlotIdAt(size, slots, i);
      assert (i + 1) * (4 + size) == i * (4 + size) + 4 + size;
      if slots[i].id == id {
        assert first == i;
      } else {
        FindSlotFirst(size, slots, id, i + 1);
      }
    }
  }

  lemma HeaderRead(compact: bool, typeId: int32, body: seq<byte>, slots: seq<Slot>, data: seq<byte>)
    requires At(data, 0, Header(compact, typeId, body, slots))
    requires HEADER_LENGTH + |body| + |Footer(compact, OffsetSize(slots), slots)| <= MAX_INT32
    ensures Int8At(data, 0) == BINARY_OBJECT_CODE
    ensures UIntAt(data, FLAGS_POS, 2) == Flags(compact, slots)
    ensures Int32At(data, TYPE_ID_POS) == typeId
    ensures Int32At(data, LENGTH_POS) == HEADER_LENGTH + |body| + |Footer(compact, OffsetSize(slots), slots)|
    ensures Int32At(data, SCHEMA_ID_POS) == SchemaIds.SchemaId(Ids(slots))
    ensures UIntAt(data, SCHEMA_OFFSET_POS, 4) == HEADER_LENGTH + |body|
  {
    hide Flags, SliceHash, SchemaIds.SchemaId, Footer, At, LE;
    var front, hash, back := HeaderFront(compact, typeId, slots), LE(4, SliceHash(body)), HeaderBack(compact, body, slots);
    AtSplit(data, 0, front + hash, back);
    AtSplit(data, 0, front, hash);
    FlagsRead(compact, slots);
    HeaderFrontRead(Flags(compact, slots), typeId, data);
    HeaderBackRead(HEADER_LENGTH + |body| + |Footer(compact, OffsetSize(slots), slots)|,
                   SchemaIds.SchemaId(Ids(slots)), HEADER_LENGTH + |body|, data);
  }

  lemma HeaderFrontRead(flags: nat, typeId: int32, data: seq<byte>)
    requires At(data, 0, FrontBytes(flags, typeId)) && flags < 0x1_0000
    ensures |data| >= 8 && Int8At(data, 0) == BINARY_OBJECT_CODE
    ensures UIntAt(data, FLAGS_POS, 2) == flags
    ensures Int32At(data, TYPE_ID_POS) == typeId
  {
    var c, v, f, t := LE(1, BINARY_OBJECT_CODE), LE(1, PROTO_VERSION), LE(2, flags), LE(4, typeId);
    AtSplit(data, 0, c + v + f, t);
    AtSplit(data, 0, c + v, f);
    AtSplit(data, 0, c, v);
    Int8AtWritten(data, 0, BINARY_OBJECT_CODE);
    Int32AtWritten(data, TYPE_ID_POS, typeId);
    Widths();
    UnsignedRoundTrip(2, flags);
  }

  lemma HeaderBackRead(length: nat, schemaId: int32, offset: nat, data: seq<byte>)
    requires At(data, LENGTH_POS, BackBytes(length, schemaId, offset))
    requires length <= MAX_INT32 && offset <= MAX_INT32
    ensures |data| >= HEADER_LENGTH
    ensures Int32At(data, LENGTH_POS) == length
    ensures Int32At(data, SCHEMA_ID_POS) == schemaId
    ensures UIntAt(data, SCHEMA_OFFSET_POS, 4) == offset
  {
    var l, s, o := LE(4, length), LE(4, schemaId), LE(4, offset);
    AtSplit(data, LENGTH_POS, l + s, o);
    AtSplit(data, LENGTH_POS, l, s);
    Int32AtWritten(data, LENGTH_POS, length);
    Int32AtWritten(data, SCHEMA_ID_POS, schemaId);
    Widths();
    UnsignedRoundTrip(4, offset);
  }

  // The parts of an object that stands at the start of `data`.
  lemma ObjectParts(compact: bool, typeId: int32, body: seq<byte>, slots: seq<Slot>, data: seq<byte>)
    requires data == Header(compact, typeId, body, slots) + body + Footer(compact, OffsetSize(slots), slots)
    ensures At(data, 0, Header(compact, typeId, body, slots)) && At(data, HEADER_LENGTH, body)
    ensures data[HEADER_LENGTH + |body|..] == Footer(compact, OffsetSize(slots), slots)
  {
    hide Header, Footer;
  }

  lemma ClassNameRead(typeId: int32, typeName: seq<byte>, rest: seq<byte>, data: seq<byte>)
    requires At(data, HEADER_LENGTH, ClassName(typeId, typeName) + rest) && |data| <= MAX_INT32
    requires Int32At(data, TYPE_ID_POS) == typeId
    ensures TypeIdResolves(data)
    ensures typeId == UNREGISTERED_CODE ==>
      UnmarshalStringAt(data, HEADER_LENGTH) == Ok(Read(typeName, HEADER_LENGTH + |ClassName(typeId, typeName)|))
  {
    if typeId == UNREGISTERED_CODE {
      AtSplit(data, HEADER_LENGTH, ClassName(typeId, typeName), rest);
      AtSplit(data, HEADER_LENGTH, LE(1, STRING_CODE), EncodeString(typeName));
      Int8AtWritten(data, HEADER_LENGTH, STRING_CODE);
      StringRoundTrip(typeName, data, HEADER_LENGTH + 1);
    }
  }

  // The lookup gets back the flags and the footer that the writer laid out.
  lemma LayoutRead(compact: bool, typeId: int32, typeName: seq<byte>, values: seq<Value>, slots: seq<Slot>, data: seq<byte>)
    requires var body := ObjectBody(typeId, typeName, values);
      data == Header(compact, typeId, body, slots) + body + Footer(compact, OffsetSize(slots), slots)
    requires |data| <= MAX_INT32
    ensures FlagsOf(data) == Flags(compact, slots) && TypeIdResolves(data)
    ensures slots != [] ==> FooterOf(data) == Ok((Footer(compact, OffsetSize(slots), slots), OffsetSize(slots)))
    ensures Int32At(data, LENGTH_POS) == |data| && Int8At(data, 0) == BINARY_OBJECT_CODE
    ensures Int32At(data, TYPE_ID_POS) == typeId && Int32At(data, SCHEMA_ID_POS) == SchemaIds.SchemaId(Ids(slots))
    ensures typeId == UNREGISTERED_CODE ==>
      UnmarshalStringAt(data, HEADER_LENGTH) == Ok(Read(typeName, HEADER_LENGTH + |ClassName(typeId, typeName)|))
  {
    hide Header, Flags, Footer, OffsetSize, ClassName, TypeIdResolves, FooterOf, At;
    var body := ObjectBody(typeId, typeName, values);
    ObjectParts(compact, typeId, body, slots, data);
    HeaderRead(compact, typeId, body, slots, data);
    ClassNameRead(typeId, typeName, EncodeAll(values), data);
    FooterRead(compact, body, slots, data);
  }

  lemma FooterRead(compact: bool, body: seq<byte>, slots: seq<Slot>, data: seq<byte>)
    requires |data| >= HEADER_LENGTH + |body| && FlagsOf(data) == Flags(compact, slots)
    requires UIntAt(data, SCHEMA_OFFSET_POS, 4) == HEADER_LENGTH + |body|
    requires data[HEADER_LENGTH + |body|..] == Footer(compact, OffsetSize(slots), slots)
    ensures slots != [] ==> FooterOf(data) == Ok((Footer(compact, OffsetSize(slots), slots), OffsetSize(slots)))
  {
    hide Flags, FlagsOf, Footer, OffsetSize, HasFlag;
    FlagsRead(compact, slots);
    OffsetSizeRange(slots);
    assert data[HEADER_LENGTH + |body|..|data|] == data[HEADER_LENGTH + |body|..];
  }

  // What a lookup in a finished object comes down to.
  function LookupIn(data: seq<byte>, compact: bool, slots: seq<Slot>, schema: Option<seq<int32>>, id: int32): Result<Value> {
    var size := OffsetSize(slots);
    var footer := Footer(compact, size, slots);
    match OffsetPosition(compact, footer, size, schema, id)
    case Err(e) => Err(e)
    case Ok(None) => Ok(Null)
    case Ok(Some(at)) =>
      if at + size > |footer| then Err(Panic)
      else
        match Decode(data, UIntAt(footer, at, size))
        case Ok(read) => Ok(read.value)
        case Err(e) => Err(e)
  }

  lemma LookupInObject(compact: bool, slots: seq<Slot>, data: seq<byte>, schema: Option<seq<int32>>, id: int32)
    requires FlagsOf(data) == Flags(compact, slots) && TypeIdResolves(data)
    requires slots != [] ==> FooterOf(data) == Ok((Footer(compact, OffsetSize(slots), slots), OffsetSize(slots)))
    ensures LookupField(data, schema, id) == if slots == [] then Ok(Null) else LookupIn(data, compact, slots, schema, id)
  {
    hide Flags, FlagsOf, Footer, FooterOf, OffsetSize, OffsetPosition, Decode, TypeIdResolves, UIntAt;
    FlagsRead(compact, slots);
  }

  lemma SlotsLength(offset: nat, ids: seq<int32>, values: seq<Value>)
    requires |ids| == |values| && offset + |EncodeAll(values)| <= MAX_INT32
    ensures |SlotsFrom(offset, ids, values)| == |ids|
    ensures Ids(SlotsFrom(offset, ids, values)) == ids
  {
    var slots := SlotsFrom(offset, ids, values);
    forall i | 0 <= i < |ids| ensures slots[i].id == ids[i] {
      SlotsFromAt(offset, ids, values, i);
    }
  }

  lemma OffsetSizeRange(slots: seq<Slot>)
    ensures OffsetSize(slots) in {1, 2, 4}
  {
  }

  // The index whose value a lookup returns: the last field of that id with a compact footer, the
  // first one otherwise.
  function FieldIndex(compact: bool, ids: seq<int32>, id: int32): (i: int)
    ensures -1 <= i < |ids| && (i == -1 <==> id !in ids) && (i >= 0 ==> ids[i] == id)
  {
    if compact then LastIndex(ids, id) else FirstIndex(ids, id)
  }

  lemma OffsetPositionRead(compact: bool, slots: seq<Slot>, size: nat, ids: seq<int32>, schema: Option<seq<int32>>, id: int32)
    requires ids == Ids(slots) && (compact ==> schema == Some(ids))
    ensures var i := FieldIndex(compact, ids, id);
      OffsetPosition(compact, Footer(compact, size, slots), size, schema, id)
        == Ok(if i == -1 then None else Some(i * Stride(compact, size) + (if compact then 0 else 4)))
  {
    if !compact {
      FindSlotFirst(size, slots, id, 0);
    }
  }

  // The offset that the footer keeps for slot i.
  lemma OffsetRead(compact: bool, size: nat, slots: seq<Slot>, i: nat)
    requires i < |slots| && 0 <= slots[i].offset < Pow256(size)
    ensures var footer := Footer(compact, size, slots);
      var at := i * Stride(compact, size) + (if compact then 0 else 4);
      at + size <= |footer| && UIntAt(footer, at, size) == slots[i].offset
  {
    hide Footer;
    var footer := Footer(compact, size, slots);
    FooterAt(compact, size, slots, i);
    assert (i + 1) * Stride(compact, size) == i * Stride(compact, size) + Stride(compact, size);
    if compact {
      assert SlotBytes(compact, size, slots[i]) == LE(size, slots[i].offset);
    } else {
      AtSplit(footer, i * Stride(compact, size), LE(4, slots[i].id), LE(size, slots[i].offset));
    }
    UnsignedRoundTrip(size, slots[i].offset);
  }

  lemma ValueInObject(typeId: int32, typeName: seq<byte>, ids: seq<int32>, values: seq<Value>, data: seq<byte>, i: nat)
    requires |ids| == |values| && i < |ids| && AllWellFormed(values)
    requires At(data, HEADER_LENGTH, ObjectBody(typeId, typeName, values)) && |data| <= MAX_INT32
    ensures var slots := SlotsFrom(HEADER_LENGTH + |ClassName(typeId, typeName)|, ids, values);
      slots[i].offset >= 0
      && Decode(data, slots[i].offset) == Ok(Read(Norm(values[i]), slots[i].offset + |Encode(values[i])|))
  {
    hide Encode, EncodeAll, ClassName, At, Decode, WellFormed, Norm;
    var start := HEADER_LENGTH + |ClassName(typeId, typeName)|;
    AtSplit(data, HEADER_LENGTH, ClassName(typeId, typeName), EncodeAll(values));
    AtLength(data, HEADER_LENGTH, ObjectBody(typeId, typeName, values));
    SlotsFromAt(start, ids, values, i);
    var k := SlotsFrom(start, ids, values)[i].offset - start;
    AtSlice(data, start, EncodeAll(values), k, k + |Encode(values[i])|);
    WellFormedAt(values, i);
    ValueRoundTrip(values[i], data, start + k);
  }

  lemma AtLength(buf: seq<byte>, pos: nat, data: seq<byte>)
    requires At(buf, pos, data)
    ensures pos + |data| <= |buf|
  {
  }

  lemma {:induction false} WellFormedAt(vs: seq<Value>, i: nat)
    requires AllWellFormed(vs) && i < |vs|
    ensures WellFormed(vs[i])
    decreases i
  {
    hide WellFormed;
    if i > 0 {
      WellFormedAt(vs[1..], i - 1);
    }
  }

  // A finished object gives back its fields: for every list of ids and values, with or without
  // compact footer and with every offset size, a lookup of an id returns the (normalised) value
  // written under it, and null if there is none.  Of several fields with one id a compact footer
  // gives the last and the other footer the first.
  lemma FieldLookup(compact: bool, typeId: int32, typeName: seq<byte>, ids: seq<int32>, values: seq<Value>,
                    schema: Option<seq<int32>>, id: int32)
    requires |ids| == |values| && AllWellFormed(values)
    requires HEADER_LENGTH + |ObjectBody(typeId, typeName, values)| <= MAX_INT32
    requires |ObjectBytes(compact, typeId, typeName, ids, values)| <= MAX_INT32
    requires compact ==> schema == Some(ids)
    ensures var i := FieldIndex(compact, ids, id);
      LookupField(ObjectBytes(compact, typeId, typeName, ids, values), schema, id)
        == Ok(if i == -1 then Null else Norm(values[i]))
  {
    hide Header, Footer, Encode, EncodeAll, Decode, ClassName, SlotsFrom, WellFormed, AllWellFormed, Norm,
         OffsetPosition, FlagsOf, Flags, TypeIdResolves, FooterOf;
    var data := ObjectBytes(compact, typeId, typeName, ids, values);
    var body := ObjectBody(typeId, typeName, values);
    var start := HEADER_LENGTH + |ClassName(typeId, typeName)|;
    var slots := SlotsFrom(start, ids, values);
    var size, i := OffsetSize(slots), FieldIndex(compact, ids, id);
    SlotsLength(start, ids, values);
    LayoutRead(compact, typeId, typeName, values, slots, data);
    LookupInObject(compact, slots, data, schema, id);
    OffsetPositionRead(compact, slots, size, ids, schema, id);
    if i >= 0 {
      OffsetFits(start, ids, values, i);
      OffsetRead(compact, size, slots, i);
      ObjectParts(compact, typeId, body, slots, data);
      ValueInObject(typeId, typeName, ids, values, data, i);
    }
  }

  // With a compact footer the field list decides: read through another list, an id gives the value at
  // the place where that list has it, which may be another field's, null where it has none, and a panic
  // where the object ends before it.
  lemma CompactLookup(typeId: int32, typeName: seq<byte>, ids: seq<int32>, values: seq<Value>, known: seq<int32>, id: int32)
    requires |ids| == |values| && AllWellFormed(values)
    requires HEADER_LENGTH + |ObjectBody(typeId, typeName, values)| <= MAX_INT32
    requires |ObjectBytes(true, typeId, typeName, ids, values)| <= MAX_INT32
    ensures var i := LastIndex(known, id);
      LookupField(ObjectBytes(true, typeId, typeName, ids, values), Some(known), id)
        == if ids == [] || i == -1 then Ok(Null) else if i < |ids| then Ok(Norm(values[i])) else Err(Panic)
  {
    hide Header, Footer, Encode, EncodeAll, Decode, ClassName, SlotsFrom, WellFormed, AllWellFormed, Norm,
         FlagsOf, Flags, TypeIdResolves, FooterOf;
    var data := ObjectBytes(true, typeId, typeName, ids, values);
    var start := HEADER_LENGTH + |ClassName(typeId, typeName)|;
    var slots := SlotsFrom(start, ids, values);
    var size, i := OffsetSize(slots), LastIndex(known, id);
    SlotsLength(start, ids, values);
    LayoutRead(true, typeId, typeName, values, slots, data);
    LookupInObject(true, slots, data, Some(known), id);
    FooterLength(true, size, slots);
    if 0 <= i < |ids| {
      OffsetFits(start, ids, values, i);
      OffsetRead(true, size, slots, i);
      ObjectParts(true, typeId, ObjectBody(typeId, typeName, values), slots, data);
      ValueInObject(typeId, typeName, ids, values, data, i);
    } else if ids != [] && i >= 0 {
      BehindFooter(i, |ids|, size);
    }
  }

  lemma BehindFooter(i: nat, n: nat, size: nat)
    requires i >= n && size > 0
    ensures i * size + size > n * size
  {
    assert i * size >= n * size;
  }

  // With at least one field a finished object is a value of its own, which other objects and
  // collections can hold.
  lemma FinishedObject(compact: bool, typeId: int32, typeName: seq<byte>, ids: seq<int32>, values: seq<Value>)
    requires |ids| == |values| && HEADER_LENGTH + |ObjectBody(typeId, typeName, values)| <= MAX_INT32
    requires |ObjectBytes(compact, typeId, typeName, ids, values)| <= MAX_INT32
    ensures ids != [] ==> ObjectWellFormed(ObjectBytes(compact, typeId, typeName, ids, values))
  {
    hide Header, Footer, Encode, EncodeAll, ClassName, SlotsFrom, TypeIdResolves, FlagsOf, Flags, FooterOf;
    if ids != [] {
      var data := ObjectBytes(compact, typeId, typeName, ids, values);
      var slots := SlotsFrom(HEADER_LENGTH + |ClassName(typeId, typeName)|, ids, values);
      LayoutRead(compact, typeId, typeName, values, slots, data);
      SlotsLength(HEADER_LENGTH + |ClassName(typeId, typeName)|, ids, values);
      OffsetSizeRange(slots);
      FooterNotEmpty(compact, OffsetSize(slots), slots);
      Widths();
      assert UIntAt(data, 0, 1) == data[0];
    }
  }

  lemma FooterNotEmpty(compact: bool, size: nat, slots: seq<Slot>)
    requires slots != [] && size > 0
    ensures Footer(compact, size, slots) != []
  {
    FooterAt(compact, size, slots, 0);
  }

  function AsValues(objects: seq<seq<byte>>): (vs: seq<Value>)
    ensures |vs| == |objects| && forall i :: 0 <= i < |objects| ==> vs[i] == Object(objects[i])
  {
    if objects == [] then [] else [Object(objects[0])] + AsValues(objects[1..])
  }

  function Join(objects: seq<seq<byte>>): seq<byte> {
    if objects == [] then [] else objects[0] + Join(objects[1..])
  }

  lemma {:induction false} AsValuesFacts(objects: seq<seq<byte>>)
    requires forall i :: 0 <= i < |objects| ==> ObjectWellFormed(objects[i])
    ensures EncodeAll(AsValues(objects)) == Join(objects) && AllWellFormed(AsValues(objects))
    ensures NormAll(AsValues(objects)) == AsValues(objects)
  {
    hide ObjectWellFormed;
    if objects != [] {
      AsValuesFacts(objects[1..]);
    }
  }

  // Objects written back to back are read one by one, each with exactly its own bytes.
  lemma BackToBack(objects: seq<seq<byte>>, buf: seq<byte>, pos: nat)
    requires forall i :: 0 <= i < |objects| ==> ObjectWellFormed(objects[i])
    requires At(buf, pos, Join(objects)) && |Join(objects)| <= MAX_INT32
    ensures DecodeSeq(None, buf, pos, |objects|, []) == Ok(Read(AsValues(objects), pos + |Join(objects)|))
  {
    hide ObjectWellFormed, Encode, At;
    AsValuesFacts(objects);
    AtLength(buf, pos, Join(objects));
    SeqRoundTrip(None, AsValues(objects), buf, pos, []);
    assert [] + NormAll(AsValues(objects)) == AsValues(objects);
  }
}
