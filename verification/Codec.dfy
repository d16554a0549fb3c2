// The recursive printer and parser of marshaller.go as functions on byte sequences.
module Codec {
  import opened Wrappers
  import opened Bytes
  import opened Streams
  import opened Scalars
  import opened Values

  // ----------------------------------------------------------------- printer

  // Elements of a fixed width, as the unsafe copy of a little-endian machine lays them out.
  function EncodeInts(width: nat, vs: seq<int>): (s: seq<byte>)
    ensures |s| == width * |vs|
  {
    if vs == [] then [] else LE(width, vs[0]) + EncodeInts(width, vs[1..])
  }

  function EncodeString(chars: seq<byte>): seq<byte> {
    LE(4, |chars|) + chars
  }

  // Two 64-bit words, each read big-endian and written little-endian.
  function EncodeUuid(u: Uuid): (s: seq<byte>)
    ensures |s| == 16
  {
    LE(8, FromLE(Reverse(u[..8]))) + LE(8, FromLE(Reverse(u[8..])))
  }

  function EncodeLeaf(l: Leaf): seq<byte> {
    match l
    case Str(chars) => EncodeString(chars)
    case Id(uuid) => EncodeUuid(uuid)
    case Date(millis) => LE(8, millis)
    case Time(millis) => LE(8, millis)
    case Stamp(t) => EncodeTimestamp(t)
    case Dec(d) => EncodeDecimal(d)
  }

  function Encode(v: Value): seq<byte>
    decreases v, 1
  {
    match v
    case Null | NullOf(_) => LE(1, NULL_CODE)
    case Scalar(p, x) => LE(1, p.Code()) + LE(p.Width(), x)
    case Unsigned(p, x) => LE(1, p.Code()) + LE(p.Width(), x)
    case ByteArray(data) => LE(1, BYTE_ARRAY_CODE) + EncodeString(data)
    case PrimArray(p, vs) => LE(1, p.ArrayCode()) + (LE(4, |vs|) + EncodeInts(p.Width(), vs))
    case UnsignedArray(p, vs) => LE(1, p.ArrayCode()) + (LE(4, |vs|) + EncodeInts(p.Width(), vs))
    case LeafValue(l) => LE(1, l.Kind().Code()) + EncodeLeaf(l)
    case LeafArray(kind, elems) => LE(1, kind.ArrayCode()) + (LE(4, |elems|) + EncodeAll(elems))
    case ObjectArray(elems) =>
      LE(1, OBJECT_ARRAY_CODE) + (LE(4, OBJECT_CODE) + (LE(4, |elems|) + EncodeAll(elems)))
    case Collection(kind, elems) =>
      LE(1, COLLECTION_CODE) + (LE(4, |elems|) + (LE(1, kind) + EncodeAll(elems)))
    case Map(kind, entries) =>
      LE(1, MAP_CODE) + (LE(4, |entries|) + (LE(1, kind) + EncodeEntries(entries)))
    case Object(data) => data
  }

  function EncodeAll(vs: seq<Value>): seq<byte>
    decreases vs, 0
  {
    if vs == [] then [] else Encode(vs[0]) + EncodeAll(vs[1..])
  }

  function EncodeEntries(es: seq<Entry>): seq<byte>
    decreases es, 0
  {
    if es == [] then [] else EncodeEntry(es[0]) + EncodeEntries(es[1..])
  }

  function EncodeEntry(e: Entry): seq<byte>
    decreases e, 2
  {
    Encode(e.key) + Encode(e.value)
  }

  // What the writer takes: values in the range of their type, typed arrays with elements of one
  // kind, primitive arrays that are not empty (the source indexes element 0), timestamps whose
  // milliseconds fit in 64 bits, and complete binary objects.
  predicate WellFormed(v: Value)
    decreases v, 1
  {
    match v
    case Null => true
    case NullOf(code) => code != NULL_CODE
    case Scalar(p, x) => p.InRange(x)
    case Unsigned(p, x) => p.InUnsignedRange(x)
    case ByteArray(_) => true
    case PrimArray(p, vs) => vs != [] && forall i :: 0 <= i < |vs| ==> p.InRange(vs[i])
    case UnsignedArray(p, vs) =>
      vs != [] && forall i :: 0 <= i < |vs| ==> p.InUnsignedRange(vs[i])
    case LeafValue(l) => LeafWellFormed(l)
    case LeafArray(kind, elems) =>
      AllWellFormed(elems) && forall i :: 0 <= i < |elems| ==> IsElement(kind, elems[i])
    case ObjectArray(elems) => AllWellFormed(elems)
    case Collection(_, elems) => AllWellFormed(elems)
    case Map(_, entries) => EntriesWellFormed(entries)
    case Object(data) => ObjectWellFormed(data)
  }

  predicate LeafWellFormed(l: Leaf) {
    l.Stamp? ==> InInt64(l.timestamp.seconds * 1000 + l.timestamp.nanos / NANOS_PER_MILLI)
  }

  predicate AllWellFormed(vs: seq<Value>)
    decreases vs, 0
  {
    vs == [] || (WellFormed(vs[0]) && AllWellFormed(vs[1..]))
  }

  predicate EntriesWellFormed(es: seq<Entry>)
    decreases es, 0
  {
    es == [] || (EntryWellFormed(es[0]) && EntriesWellFormed(es[1..]))
  }

  predicate EntryWellFormed(e: Entry)
    decreases e, 2
  {
    WellFormed(e.key) && WellFormed(e.value)
  }

  // ------------------------------------------------------------------ parser

  const HEADER_LENGTH := 24
  const TYPE_ID_POS := 4
  const LENGTH_POS := 12

  function ReadStringAt(buf: seq<byte>, pos: nat): (r: Result<Read<seq<byte>>>)
    ensures r.Ok? ==> pos + 4 <= r.value.next <= |buf|
  {
    if |buf| - pos < 4 then Err(InvalidStream)
    else
      var size := Int32At(buf, pos);
      if |buf| - (pos + 4) < size then Err(InvalidStream)
      else if size < 0 then Err(Panic)
      else Ok(Read(buf[pos + 4..pos + 4 + size], pos + 4 + size))
  }

  // A string that may be null, which reads as empty.
  function UnmarshalStringAt(buf: seq<byte>, pos: nat): (r: Result<Read<seq<byte>>>)
    ensures r.Ok? ==> pos < r.value.next <= |buf|
  {
    if |buf| - pos < 1 then Err(InvalidStream)
    else if Int8At(buf, pos) == NULL_CODE then Ok(Read([], pos + 1))
    else if Int8At(buf, pos) == STRING_CODE then ReadStringAt(buf, pos + 1)
    else Err(UnexpectedType(Int8At(buf, pos)))
  }

  function ReadUuidAt(buf: seq<byte>, pos: nat): (r: Result<Read<Uuid>>)
    ensures r.Ok? ==> r.value.next == pos + 16 <= |buf|
  {
    if |buf| - pos < 16 then Err(InvalidStream)
    else Ok(Read(Reverse(LE(8, UIntAt(buf, pos, 8))) + Reverse(LE(8, UIntAt(buf, pos + 8, 8))), pos + 16))
  }

  // readClass: a type id, followed by a name when the type is not registered.
  function ReadClassAt(buf: seq<byte>, pos: nat): (r: Result<Read<int32>>)
    ensures r.Ok? ==> pos + 4 <= r.value.next <= |buf|
  {
    if |buf| - pos < 4 then Err(InvalidStream)
    else
      var id := Int32At(buf, pos);
      if id != UNREGISTERED_CODE then Ok(Read(id, pos + 4))
      else
        match UnmarshalStringAt(buf, pos + 4)
        case Ok(name) => Ok(Read(id, name.next))
        case Err(e) => Err(e)
  }

  function DecodeLeaf(kind: LeafKind, buf: seq<byte>, pos: nat): (r: Result<Read<Leaf>>)
    ensures r.Ok? ==> pos < r.value.next <= |buf| && r.value.value.Kind() == kind
  {
    match kind
    case KString =>
      (match ReadStringAt(buf, pos) case Ok(s) => Ok(Read(Str(s.value), s.next)) case Err(e) => Err(e))
    case KUuid =>
      (match ReadUuidAt(buf, pos) case Ok(u) => Ok(Read(Id(u.value), u.next)) case Err(e) => Err(e))
    case KDate =>
      if |buf| - pos < 8 then Err(InvalidStream) else Ok(Read(Date(Int64At(buf, pos)), pos + 8))
    case KTime =>
      if |buf| - pos < 8 then Err(InvalidStream) else Ok(Read(Time(Int64At(buf, pos)), pos + 8))
    case KTimestamp =>
      (match DecodeTimestamp(buf, pos) case Ok(t) => Ok(Read(Stamp(t.value), t.next)) case Err(e) => Err(e))
    case KDecimal =>
      (match DecodeDecimal(buf, pos) case Ok(d) => Ok(Read(Dec(d.value), d.next)) case Err(e) => Err(e))
  }

  function PrimAt(p: Prim, buf: seq<byte>, pos: nat): int
    requires pos + p.Width() <= |buf|
  {
    if p.PBool? then (if buf[pos] == 1 then 1 else 0)
    else if p.IsSigned() then IntAt(buf, pos, p.Width())
    else UIntAt(buf, pos, p.Width())
  }

  function PrimsAt(p: Prim, buf: seq<byte>, pos: nat, n: nat): (vs: seq<int>)
    requires pos + n * p.Width() <= |buf|
    ensures |vs| == n
    decreases n
  {
    if n == 0 then []
    else
      assert n * p.Width() == p.Width() + (n - 1) * p.Width();
      [PrimAt(p, buf, pos)] + PrimsAt(p, buf, pos + p.Width(), n - 1)
  }

  function DecodePrimArray(p: Prim, buf: seq<byte>, pos: nat): (r: Result<Read<Value>>)
    ensures r.Ok? ==> pos < r.value.next <= |buf|
  {
    if |buf| - pos < 4 then Err(InvalidStream)
    else
      var n := Int32At(buf, pos);
      if |buf| - (pos + 4) < n * p.Width() then Err(InvalidStream)
      else if n <= 0 then Err(Panic)
      else Ok(Read(PrimArray(p, PrimsAt(p, buf, pos + 4, n)), pos + 4 + n * p.Width()))
  }

  // The type id of a binary object: from its header, or by the class name behind the header.
  predicate TypeIdResolves(data: seq<byte>) {
    && |data| >= HEADER_LENGTH
    && (Int32At(data, TYPE_ID_POS) == UNREGISTERED_CODE ==> UnmarshalStringAt(data, HEADER_LENGTH).Ok?)
  }

  // pos is behind the type code, which is the first byte of the object.
  function DecodeObject(buf: seq<byte>, pos: nat): (r: Result<Read<Value>>)
    requires pos >= 1
    ensures r.Ok? ==> pos < r.value.next <= |buf|
  {
    if |buf| - pos < HEADER_LENGTH then Err(InvalidStream)
    else
      var start := pos - 1;
      var size := Int32At(buf, start + LENGTH_POS);
      if |buf| - start < size then Err(InvalidStream)
      else if size < 0 then Err(Panic)
      else
        var data := buf[start..start + size];
        if TypeIdResolves(data) then Ok(Read(Object(data), start + size)) else Err(CorruptedObject)
  }

  predicate ObjectWellFormed(data: seq<byte>) {
    && |data| > HEADER_LENGTH
    && data[0] == BINARY_OBJECT_CODE
    && Int32At(data, LENGTH_POS) == |data|
    && TypeIdResolves(data)
  }

  function Decode(buf: seq<byte>, pos: nat): (r: Result<Read<Value>>)
    ensures r.Ok? ==> pos < r.value.next <= |buf|
    decreases |buf| - pos, 0
  {
    if |buf| - pos < 1 then Err(InvalidStream)
    else DecodeBody(Int8At(buf, pos), buf, pos + 1)
  }

  // The value behind its type code.
  function DecodeBody(code: int8, buf: seq<byte>, pos: nat): (r: Result<Read<Value>>)
    requires 1 <= pos <= |buf|
    ensures r.Ok? ==> pos <= r.value.next <= |buf|
    decreases |buf| - pos, 3
  {
    if code == NULL_CODE then Ok(Read(Null, pos))
    else if PrimOfCode(code).Some? then
      var p := PrimOfCode(code).value;
      if |buf| - pos < p.Width() then Err(InvalidStream)
      else Ok(Read(Scalar(p, PrimAt(p, buf, pos)), pos + p.Width()))
    else if code == BYTE_ARRAY_CODE then
      match ReadStringAt(buf, pos) { case Ok(s) => Ok(Read(ByteArray(s.value), s.next)) case Err(e) => Err(e) }
    else if PrimOfArrayCode(code).Some? then DecodePrimArray(PrimOfArrayCode(code).value, buf, pos)
    else if LeafOfCode(code).Some? then
      match DecodeLeaf(LeafOfCode(code).value, buf, pos) { case Ok(l) => Ok(Read(LeafValue(l.value), l.next)) case Err(e) => Err(e) }
    else if LeafOfArrayCode(code).Some? then
      match DecodeCounted(Some(LeafOfArrayCode(code).value), buf, pos) {
        case Ok(a) => Ok(Read(LeafArray(LeafOfArrayCode(code).value, a.value), a.next)) case Err(e) => Err(e) }
    else if code == OBJECT_ARRAY_CODE then
      match ReadClassAt(buf, pos) {
        case Ok(cls) =>
          (match DecodeCounted(None, buf, cls.next) { case Ok(a) => Ok(Read(ObjectArray(a.value), a.next)) case Err(e) => Err(e) })
        case Err(e) => Err(e) }
    else if code == COLLECTION_CODE then DecodeCollection(buf, pos)
    else if code == MAP_CODE then DecodeMap(buf, pos)
    else if code == BINARY_OBJECT_CODE then DecodeObject(buf, pos)
    else Err(UnsupportedType(code))
  }

  // readSlice: a 32-bit count, then the elements.
  function DecodeCounted(expected: Option<LeafKind>, buf: seq<byte>, pos: nat): (r: Result<Read<seq<Value>>>)
    ensures r.Ok? ==> pos < r.value.next <= |buf|
    decreases |buf| - pos, 2
  {
    if |buf| - pos < 4 then Err(InvalidStream)
    else if Int32At(buf, pos) < 0 then Err(Panic)
    else DecodeSeq(expected, buf, pos + 4, Int32At(buf, pos), [])
  }

  function DecodeCollection(buf: seq<byte>, pos: nat): (r: Result<Read<Value>>)
    ensures r.Ok? ==> pos < r.value.next <= |buf|
    decreases |buf| - pos, 2
  {
    if |buf| - pos < 5 then Err(InvalidStream)
    else if Int32At(buf, pos) < 0 then Err(Panic)
    else
      match DecodeSeq(None, buf, pos + 5, Int32At(buf, pos), [])
      case Ok(a) => Ok(Read(Collection(Int8At(buf, pos + 4), a.value), a.next))
      case Err(e) => Err(e)
  }

  function DecodeMap(buf: seq<byte>, pos: nat): (r: Result<Read<Value>>)
    ensures r.Ok? ==> pos < r.value.next <= |buf|
    decreases |buf| - pos, 2
  {
    if |buf| - pos < 5 then Err(InvalidStream)
    else if Int32At(buf, pos) < 0 then Err(Panic)
    else
      match DecodeEntries(buf, pos + 5, Int32At(buf, pos), [])
      case Ok(a) => Ok(Read(Map(Int8At(buf, pos + 4), a.value), a.next))
      case Err(e) => Err(e)
  }

  // One element: any value, or a nullable value of the expected kind.
  function DecodeElement(expected: Option<LeafKind>, buf: seq<byte>, pos: nat): (r: Result<Read<Value>>)
    ensures r.Ok? ==> pos < r.value.next <= |buf|
    decreases |buf| - pos, 1
  {
    if expected.None? then Decode(buf, pos)
    else if |buf| - pos < 1 then Err(InvalidStream)
    else if Int8At(buf, pos) == NULL_CODE then Ok(Read(Null, pos + 1))
    else if Int8At(buf, pos) != expected.value.Code() then Err(UnexpectedType(Int8At(buf, pos)))
    else
      match DecodeLeaf(expected.value, buf, pos + 1)
      case Ok(l) => Ok(Read(LeafValue(l.value), l.next))
      case Err(e) => Err(e)
  }

  // n further elements behind those already read.
  function DecodeSeq(expected: Option<LeafKind>, buf: seq<byte>, pos: nat, n: nat, acc: seq<Value>):
    (r: Result<Read<seq<Value>>>)
    requires pos <= |buf|
    ensures r.Ok? ==> pos + n <= r.value.next <= |buf| && |r.value.value| == |acc| + n
    decreases |buf| - pos, 2, n
  {
    if n == 0 then Ok(Read(acc, pos))
    else
      match DecodeElement(expected, buf, pos)
      case Ok(e) => DecodeSeq(expected, buf, e.next, n - 1, acc + [e.value])
      case Err(e) => Err(e)
  }

  function DecodeEntries(buf: seq<byte>, pos: nat, n: nat, acc: seq<Entry>): (r: Result<Read<seq<Entry>>>)
    requires pos <= |buf|
    ensures r.Ok? ==> pos + n <= r.value.next <= |buf| && |r.value.value| == |acc| + n
    decreases |buf| - pos, 2, n
  {
    if n == 0 then Ok(Read(acc, pos))
    else
      match DecodeEntry(buf, pos)
      case Ok(e) => DecodeEntries(buf, e.next, n - 1, acc + [e.value])
      case Err(e) => Err(e)
  }

  function DecodeEntry(buf: seq<byte>, pos: nat): (r: Result<Read<Entry>>)
    ensures r.Ok? ==> pos < r.value.next <= |buf|
    decreases |buf| - pos, 1
  {
    match Decode(buf, pos)
    case Err(e) => Err(e)
    case Ok(k) =>
      match Decode(buf, k.next)
      case Err(e) => Err(e)
      case Ok(v) => Ok(Read(Entry(k.value, v.value), v.next))
  }
}
