// The values a client can store, their type codes, and what a value looks like after it has been
// written and read back.
module Values {
  import opened Wrappers
  import opened Bytes
  import opened Scalars

  const OBJECT_CODE: int8 := -1
  const UNREGISTERED_CODE: int8 := 0
  const STRING_CODE: int8 := 9
  const BYTE_ARRAY_CODE: int8 := 12
  const OBJECT_ARRAY_CODE: int8 := 23
  const COLLECTION_CODE: int8 := 24
  const MAP_CODE: int8 := 25
  const NULL_CODE: int8 := 101
  const BINARY_OBJECT_CODE: int8 := 103

  // Scalars with a fixed width.  Floats are taken as their bit patterns.
  datatype Prim = PByte | PShort | PInt | PLong | PFloat | PDouble | PChar | PBool {
    function Code(): int8 {
      match this
      case PByte => 1 case PShort => 2 case PInt => 3 case PLong => 4
      case PFloat => 5 case PDouble => 6 case PChar => 7 case PBool => 8
    }

    function ArrayCode(): int8 {
      match this
      case PByte => 12 case PShort => 13 case PInt => 14 case PLong => 15
      case PFloat => 16 case PDouble => 17 case PChar => 18 case PBool => 19
    }

    function Width(): nat {
      match this
      case PByte | PBool => 1 case PShort | PChar => 2 case PInt | PFloat => 4 case PLong | PDouble => 8
    }

    predicate IsSigned() {
      this in {PByte, PShort, PInt, PLong}
    }

    predicate InRange(v: int) {
      if PBool? then v == 0 || v == 1
      else if IsSigned() then 0 - Pow256(Width()) <= 2 * v < Pow256(Width())
      else 0 <= v < Pow256(Width())
    }

    // A Go unsigned integer that is written under a signed type code.
    predicate InUnsignedRange(v: int) {
      this in {PByte, PInt, PLong} && 0 <= v < Pow256(Width())
    }
  }

  type Uuid = s: seq<byte> | |s| == 16 witness Zeros(16)

  datatype LeafKind = KString | KUuid | KDate | KTime | KTimestamp | KDecimal {
    function Code(): int8 {
      match this
      case KString => 9 case KUuid => 10 case KDate => 11
      case KDecimal => 30 case KTimestamp => 33 case KTime => 36
    }

    function ArrayCode(): int8 {
      match this
      case KString => 20 case KUuid => 21 case KDate => 22
      case KDecimal => 31 case KTimestamp => 34 case KTime => 37
    }
  }

  // Values that also have typed arrays with nullable elements.
  datatype Leaf =
    | Str(chars: seq<byte>)
    | Id(uuid: Uuid)
    | Date(millis: int64)
    | Time(millis: int64)
    | Stamp(timestamp: Timestamp)
    | Dec(decimal: Decimal)
  {
    function Kind(): LeafKind {
      match this
      case Str(_) => KString case Id(_) => KUuid case Date(_) => KDate
      case Time(_) => KTime case Stamp(_) => KTimestamp case Dec(_) => KDecimal
    }
  }

  datatype Entry = Entry(key: Value, value: Value)

  datatype Value =
    | Null
    | NullOf(code: int8)                       // a nil of a type with that code: a nil slice, a null Collection or Map
    | Scalar(prim: Prim, v: int)
    | Unsigned(prim: Prim, v: int)             // uint8, uint32, uint64 and uint
    | ByteArray(data: seq<byte>)               // []byte
    | PrimArray(prim: Prim, vs: seq<int>)
    | UnsignedArray(prim: Prim, vs: seq<int>)  // []uint32, []uint64 and []uint
    | LeafValue(leaf: Leaf)
    | LeafArray(kind: LeafKind, elems: seq<Value>)
    | ObjectArray(elems: seq<Value>)
    | Collection(collKind: int8, elems: seq<Value>)
    | Map(mapKind: int8, entries: seq<Entry>)
    | Object(data: seq<byte>)                  // a whole binary object

  // The code that PrimArray's []int8 shares with []byte.
  function PrimOfCode(code: int): (p: Option<Prim>)
    ensures p.Some? ==> p.value.Code() == code
    ensures p.None? ==> forall q: Prim :: q.Code() != code
  {
    if code == 1 then Some(PByte) else if code == 2 then Some(PShort)
    else if code == 3 then Some(PInt) else if code == 4 then Some(PLong)
    else if code == 5 then Some(PFloat) else if code == 6 then Some(PDouble)
    else if code == 7 then Some(PChar) else if code == 8 then Some(PBool) else None
  }

  function PrimOfArrayCode(code: int): (p: Option<Prim>)
    ensures p.Some? ==> p.value.ArrayCode() == code
    ensures p.None? ==> forall q: Prim :: q.ArrayCode() != code
  {
    PrimOfCode(code - 11)
  }

  function LeafOfCode(code: int): (k: Option<LeafKind>)
    ensures k.Some? ==> k.value.Code() == code
    ensures k.None? ==> forall q: LeafKind :: q.Code() != code
  {
    if code == 9 then Some(KString) else if code == 10 then Some(KUuid)
    else if code == 11 then Some(KDate) else if code == 30 then Some(KDecimal)
    else if code == 33 then Some(KTimestamp) else if code == 36 then Some(KTime) else None
  }

  function LeafOfArrayCode(code: int): (k: Option<LeafKind>)
    ensures k.Some? ==> k.value.ArrayCode() == code
    ensures k.None? ==> forall q: LeafKind :: q.ArrayCode() != code
  {
    if code == 20 then Some(KString) else if code == 21 then Some(KUuid)
    else if code == 22 then Some(KDate) else if code == 31 then Some(KDecimal)
    else if code == 34 then Some(KTimestamp) else if code == 37 then Some(KTime) else None
  }

  // An element of a typed array is null or a value of the array's kind.
  predicate IsElement(kind: LeafKind, v: Value) {
    v.Null? || (v.LeafValue? && v.leaf.Kind() == kind)
  }

  // ---------------------------------------------------------- normal form

  function NormLeaf(l: Leaf): Leaf {
    if l.Dec? then Dec(CanonicalDecimal(l.decimal)) else l
  }

  // What is read back: a nil loses its type, unsigned integers turn signed, []int8 turns []byte, and a
  // negative zero decimal loses its sign.
  function Norm(v: Value): (n: Value)
    decreases v, 1
  {
    match v
    case NullOf(_) => Null
    case Unsigned(p, u) => Scalar(p, Signed(p.Width(), u))
    case PrimArray(p, vs) =>
      if p.PByte? then ByteArray(seq(|vs|, i requires 0 <= i < |vs| => vs[i] % 256)) else v
    case UnsignedArray(p, vs) =>
      if p.PByte? then ByteArray(seq(|vs|, i requires 0 <= i < |vs| => vs[i] % 256))
      else PrimArray(p, seq(|vs|, i requires 0 <= i < |vs| => Signed(p.Width(), vs[i])))
    case LeafValue(l) => LeafValue(NormLeaf(l))
    case LeafArray(kind, elems) => LeafArray(kind, NormAll(elems))
    case ObjectArray(elems) => ObjectArray(NormAll(elems))
    case Collection(kind, elems) => Collection(kind, NormAll(elems))
    case Map(kind, entries) => Map(kind, NormEntries(entries))
    case _ => v
  }

  function NormAll(vs: seq<Value>): (ns: seq<Value>)
    ensures |ns| == |vs|
    ensures forall i :: 0 <= i < |vs| ==> ns[i] == Norm(vs[i])
    decreases vs, 0
  {
    if vs == [] then [] else [Norm(vs[0])] + NormAll(vs[1..])
  }

  function NormEntries(es: seq<Entry>): (ns: seq<Entry>)
    ensures |ns| == |es|
    ensures forall i :: 0 <= i < |es| ==> ns[i] == NormEntry(es[i])
    decreases es, 0
  {
    if es == [] then [] else [NormEntry(es[0])] + NormEntries(es[1..])
  }

  function NormEntry(e: Entry): Entry
    decreases e, 2
  {
    Entry(Norm(e.key), Norm(e.value))
  }

  // Reading normalises once and for all.
  lemma {:induction false} NormIdempotent(v: Value)
    ensures Norm(Norm(v)) == Norm(v)
    decreases v, 1
  {
    match v
    case LeafArray(_, elems) => NormAllIdempotent(elems);
    case ObjectArray(elems) => NormAllIdempotent(elems);
    case Collection(_, elems) => NormAllIdempotent(elems);
    case Map(_, entries) => NormEntriesIdempotent(entries);
    case _ =>
  }

  lemma {:induction false} NormAllIdempotent(vs: seq<Value>)
    ensures NormAll(NormAll(vs)) == NormAll(vs)
    decreases vs, 0
  {
    forall i | 0 <= i < |vs| ensures Norm(Norm(vs[i])) == Norm(vs[i]) {
      NormIdempotent(vs[i]);
    }
  }

  lemma {:induction false} NormEntriesIdempotent(es: seq<Entry>)
    ensures NormEntries(NormEntries(es)) == NormEntries(es)
    decreases es, 0
  {
    forall i | 0 <= i < |es| ensures NormEntry(NormEntry(es[i])) == NormEntry(es[i]) {
      NormEntryIdempotent(es[i]);
    }
  }

  lemma {:induction false} NormEntryIdempotent(e: Entry)
    ensures NormEntry(NormEntry(e)) == NormEntry(e)
    decreases e, 2
  {
    NormIdempotent(e.key);
    NormIdempotent(e.value);
  }
}
