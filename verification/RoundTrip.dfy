// Reading what was written: the parser of module Codec undoes its printer.
module RoundTrip {
  import opened Wrappers
  import opened Bytes
  import opened Streams
  import opened Scalars
  import opened Values
  import opened Codec

  // ------------------------------------------------------------------ leaves

  lemma StringRoundTrip(chars: seq<byte>, buf: seq<byte>, pos: nat)
    requires At(buf, pos, EncodeString(chars)) && |EncodeString(chars)| <= MAX_INT32
    ensures ReadStringAt(buf, pos) == Ok(Read(chars, pos + |EncodeString(chars)|))
  {
    AtSplit(buf, pos, LE(4, |chars|), chars);
    Int32AtWritten(buf, pos, |chars|);
  }

  lemma UuidRoundTrip(u: Uuid, buf: seq<byte>, pos: nat)
    requires At(buf, pos, EncodeUuid(u))
    ensures ReadUuidAt(buf, pos) == Ok(Read(u, pos + 16))
  {
    var hi, lo := Reverse(u[..8]), Reverse(u[8..]);
    AtSplit(buf, pos, LE(8, FromLE(hi)), LE(8, FromLE(lo)));
    LEOfFromLE(hi);
    LEOfFromLE(lo);
    ReverseTwice(u[..8]);
    ReverseTwice(u[8..]);
    assert u == u[..8] + u[8..];
  }

  lemma LeafRoundTrip(l: Leaf, buf: seq<byte>, pos: nat)
    requires LeafWellFormed(l) && At(buf, pos, EncodeLeaf(l)) && |EncodeLeaf(l)| <= MAX_INT32
    ensures DecodeLeaf(l.Kind(), buf, pos) == Ok(Read(NormLeaf(l), pos + |EncodeLeaf(l)|))
  {
    hide At, EncodeString, EncodeUuid, EncodeTimestamp, EncodeDecimal, ReadStringAt, ReadUuidAt,
         DecodeTimestamp, DecodeDecimal;
    match l
    case Str(chars) => StringRoundTrip(chars, buf, pos);
    case Id(uuid) => UuidRoundTrip(uuid, buf, pos);
    case Date(millis) => Int64AtWritten(buf, pos, millis);
    case Time(millis) => Int64AtWritten(buf, pos, millis);
    case Stamp(t) => TimestampRoundTrip(t, buf, pos);
    case Dec(d) => DecimalRoundTrip(d, buf, pos);
  }

  // -------------------------------------------------------------- primitives

  // The value a primitive is read back as.
  function ReadBack(p: Prim, v: int): int {
    if p.IsSigned() then Wrap(p.Width(), v) else v
  }

  function ReadBackAll(p: Prim, vs: seq<int>): (r: seq<int>)
    ensures |r| == |vs|
    ensures forall i :: 0 <= i < |vs| ==> r[i] == ReadBack(p, vs[i])
  {
    if vs == [] then [] else [ReadBack(p, vs[0])] + ReadBackAll(p, vs[1..])
  }

  lemma PrimRoundTrip(p: Prim, v: int, buf: seq<byte>, pos: nat)
    requires p.InRange(v) || p.InUnsignedRange(v)
    requires At(buf, pos, LE(p.Width(), v))
    ensures PrimAt(p, buf, pos) == ReadBack(p, v)
  {
    if p.IsSigned() {
      WrapRoundTrip(p.Width(), v);
    } else if p.PBool? {
      Widths();
      UnsignedRoundTrip(1, v);
      assert buf[pos] == buf[pos..pos + 1][0] == v;
    } else {
      UnsignedRoundTrip(p.Width(), v);
    }
  }

  lemma {:induction false} PrimsRoundTrip(p: Prim, vs: seq<int>, buf: seq<byte>, pos: nat)
    requires forall i :: 0 <= i < |vs| ==> p.InRange(vs[i]) || p.InUnsignedRange(vs[i])
    requires At(buf, pos, EncodeInts(p.Width(), vs))
    ensures pos + |vs| * p.Width() <= |buf|
    ensures PrimsAt(p, buf, pos, |vs|) == ReadBackAll(p, vs)
  {
    hide PrimAt, ReadBack;
    if vs == [] {
    } else {
      AtSplit(buf, pos, LE(p.Width(), vs[0]), EncodeInts(p.Width(), vs[1..]));
      PrimRoundTrip(p, vs[0], buf, pos);
      PrimsRoundTrip(p, vs[1..], buf, pos + p.Width());
    }
  }

  lemma ReadBackUnsigned(p: Prim, v: int)
    requires p.InUnsignedRange(v)
    ensures ReadBack(p, v) == Signed(p.Width(), v)
  {
    DivModUnique(v, Pow256(p.Width()), 0, v);
  }

  lemma ReadBackSame(p: Prim, v: int)
    requires p.InRange(v)
    ensures ReadBack(p, v) == v
  {
    if p.IsSigned() {
      SignedRoundTrip(p.Width(), v);
      WrapRoundTrip(p.Width(), v);
    }
  }

  // Single bytes are their own encoding modulo 256.
  lemma {:induction false} EncodeBytes(vs: seq<int>)
    ensures EncodeInts(1, vs) == seq(|vs|, i requires 0 <= i < |vs| => vs[i] % 256)
  {
    if vs == [] {
    } else {
      EncodeBytes(vs[1..]);
      assert LE(1, vs[0]) == [vs[0] % 256] + LE(0, vs[0] / 256);
    }
  }

  lemma ByteElementsRoundTrip(v: Value, buf: seq<byte>, pos: nat)
    requires (v.PrimArray? || v.UnsignedArray?) && v.prim.PByte? && |v.vs| <= MAX_INT32
    requires pos > 0 && At(buf, pos, LE(4, |v.vs|) + EncodeInts(1, v.vs))
    ensures DecodeBody(BYTE_ARRAY_CODE, buf, pos) == Ok(Read(Norm(v), pos + 4 + |v.vs|))
  {
    AtSplit(buf, pos, LE(4, |v.vs|), EncodeInts(1, v.vs));
    Int32AtWritten(buf, pos, |v.vs|);
    EncodeBytes(v.vs);
  }

  lemma PrimArrayRoundTrip(v: Value, buf: seq<byte>, pos: nat)
    requires (v.PrimArray? || v.UnsignedArray?) && WellFormed(v)
    requires pos > 0 && At(buf, pos, LE(4, |v.vs|) + EncodeInts(v.prim.Width(), v.vs)) && |v.vs| <= MAX_INT32
    ensures DecodeBody(v.prim.ArrayCode(), buf, pos)
      == Ok(Read(Norm(v), pos + 4 + |v.vs| * v.prim.Width()))
  {
    hide At, PrimsAt, EncodeInts, ReadBack;
    var p, vs := v.prim, v.vs;
    if p.PByte? {
      ByteElementsRoundTrip(v, buf, pos);
    } else {
      AtSplit(buf, pos, LE(4, |vs|), EncodeInts(p.Width(), vs));
      Int32AtWritten(buf, pos, |vs|);
      PrimArrayDispatch(p, buf, pos);
      PrimsRoundTrip(p, vs, buf, pos + 4);
      forall i | 0 <= i < |vs|
        ensures v.PrimArray? ==> ReadBack(p, vs[i]) == vs[i]
        ensures v.UnsignedArray? ==> ReadBack(p, vs[i]) == Signed(p.Width(), vs[i])
      {
        if v.PrimArray? {
          ReadBackSame(p, vs[i]);
        } else {
          ReadBackUnsigned(p, vs[i]);
        }
      }
      assert PrimsAt(p, buf, pos + 4, |vs|) == Norm(v).vs;
    }
  }

  // Which reader a type code selects.
  lemma PrimDispatch(p: Prim, buf: seq<byte>, pos: nat)
    requires 1 <= pos && pos + p.Width() <= |buf|
    ensures DecodeBody(p.Code(), buf, pos) == Ok(Read(Scalar(p, PrimAt(p, buf, pos)), pos + p.Width()))
  {
    hide PrimAt;
    assert PrimOfCode(p.Code()) == Some(p);
  }

  lemma PrimArrayDispatch(p: Prim, buf: seq<byte>, pos: nat)
    requires !p.PByte? && 1 <= pos <= |buf|
    ensures DecodeBody(p.ArrayCode(), buf, pos) == DecodePrimArray(p, buf, pos)
  {
    hide DecodePrimArray;
    assert PrimOfArrayCode(p.ArrayCode()) == Some(p);
  }

  // ------------------------------------------------------------------ values

  lemma EncodeNotEmpty(v: Value)
    requires WellFormed(v)
    ensures Encode(v) != []
  {
  }

  lemma {:induction false} EncodeAllLength(vs: seq<Value>)
    requires AllWellFormed(vs)
    ensures |EncodeAll(vs)| >= |vs|
  {
    if vs != [] {
      EncodeNotEmpty(vs[0]);
      EncodeAllLength(vs[1..]);
    }
  }

  lemma {:induction false} EncodeEntriesLength(es: seq<Entry>)
    requires EntriesWellFormed(es)
    ensures |EncodeEntries(es)| >= |es|
  {
    if es != [] {
      EncodeNotEmpty(es[0].key);
      EncodeEntriesLength(es[1..]);
    }
  }

  lemma ObjectRoundTrip(data: seq<byte>, buf: seq<byte>, pos: nat)
    requires ObjectWellFormed(data) && At(buf, pos, data)
    ensures Decode(buf, pos) == Ok(Read(Norm(Object(data)), pos + |data|))
  {
    Widths();
    assert buf[pos..pos + 1] == [BINARY_OBJECT_CODE];
    assert LE(1, BINARY_OBJECT_CODE) == [BINARY_OBJECT_CODE] + LE(0, 0);
    Int8AtWritten(buf, pos, BINARY_OBJECT_CODE);
    AtSlice(buf, pos, data, LENGTH_POS, LENGTH_POS + 4);
    assert buf[pos + LENGTH_POS..pos + LENGTH_POS + 4] == data[LENGTH_POS..LENGTH_POS + 4];
  }

  // The type code in front of a value selects its reader.
  lemma CodeRead(code: int8, rest: seq<byte>, buf: seq<byte>, pos: nat)
    requires At(buf, pos, LE(1, code) + rest)
    ensures Decode(buf, pos) == DecodeBody(code, buf, pos + 1)
    ensures At(buf, pos + 1, rest)
  {
    AtSplit(buf, pos, LE(1, code), rest);
    Int8AtWritten(buf, pos, code);
  }

  // Reading a written value returns its normal form and stops exactly behind its last byte,
  // whatever follows, at any nesting depth.
  lemma {:induction false} ValueRoundTrip(v: Value, buf: seq<byte>, pos: nat)
    requires WellFormed(v) && At(buf, pos, Encode(v)) && |Encode(v)| <= MAX_INT32
    ensures Decode(buf, pos) == Ok(Read(Norm(v), pos + |Encode(v)|))
    decreases v, 1
  {
    hide At, Decode, Norm, ObjectWellFormed;
    match v
    case Null | NullOf(_) | Scalar(_, _) | Unsigned(_, _) => ScalarRoundTrip(v, buf, pos);
    case ByteArray(_) | PrimArray(_, _) | UnsignedArray(_, _) => FlatArrayRoundTrip(v, buf, pos);
    case LeafValue(l) => LeafValueRoundTrip(l, buf, pos);
    case LeafArray(kind, elems) => LeafArrayRoundTrip(v, buf, pos);
    case ObjectArray(elems) => ObjectArrayRoundTrip(v, buf, pos);
    case Collection(kind, elems) => CollectionRoundTrip(v, buf, pos);
    case Map(kind, entries) => MapRoundTrip(v, buf, pos);
    case Object(data) => ObjectRoundTrip(data, buf, pos);
  }

  lemma ScalarRoundTrip(v: Value, buf: seq<byte>, pos: nat)
    requires (v.Null? || v.NullOf? || v.Scalar? || v.Unsigned?) && WellFormed(v) && At(buf, pos, Encode(v))
    ensures Decode(buf, pos) == Ok(Read(Norm(v), pos + |Encode(v)|))
  {
    hide At, Decode, PrimAt, ReadBack;
    match v
    case Null | NullOf(_) =>
      NullRoundTrip(buf, pos);
    case Scalar(p, x) =>
      CodedPrimRoundTrip(p, x, buf, pos);
      ReadBackSame(p, x);
    case Unsigned(p, x) =>
      CodedPrimRoundTrip(p, x, buf, pos);
      ReadBackUnsigned(p, x);
  }

  lemma NullRoundTrip(buf: seq<byte>, pos: nat)
    requires At(buf, pos, LE(1, NULL_CODE))
    ensures Decode(buf, pos) == Ok(Read(Null, pos + 1))
  {
    assert LE(1, NULL_CODE) == LE(1, NULL_CODE) + [];
    CodeRead(NULL_CODE, [], buf, pos);
  }

  lemma CodedPrimRoundTrip(p: Prim, x: int, buf: seq<byte>, pos: nat)
    requires p.InRange(x) || p.InUnsignedRange(x)
    requires At(buf, pos, LE(1, p.Code()) + LE(p.Width(), x))
    ensures Decode(buf, pos) == Ok(Read(Scalar(p, ReadBack(p, x)), pos + 1 + p.Width()))
  {
    hide DecodeBody, Decode, PrimAt, ReadBack;
    CodeRead(p.Code(), LE(p.Width(), x), buf, pos);
    PrimRoundTrip(p, x, buf, pos + 1);
    PrimDispatch(p, buf, pos + 1);
  }

  lemma FlatArrayRoundTrip(v: Value, buf: seq<byte>, pos: nat)
    requires (v.ByteArray? || v.PrimArray? || v.UnsignedArray?) && WellFormed(v)
    requires At(buf, pos, Encode(v)) && |Encode(v)| <= MAX_INT32
    ensures Decode(buf, pos) == Ok(Read(Norm(v), pos + |Encode(v)|))
  {
    hide At, EncodeInts, DecodeBody, Decode;
    if v.ByteArray? {
      ByteArrayRoundTrip(v.data, buf, pos);
    } else {
      CodeRead(v.prim.ArrayCode(), LE(4, |v.vs|) + EncodeInts(v.prim.Width(), v.vs), buf, pos);
      PrimArrayRoundTrip(v, buf, pos + 1);
    }
  }

  lemma ByteArrayRoundTrip(data: seq<byte>, buf: seq<byte>, pos: nat)
    requires At(buf, pos, Encode(ByteArray(data))) && |Encode(ByteArray(data))| <= MAX_INT32
    ensures Decode(buf, pos) == Ok(Read(Norm(ByteArray(data)), pos + |Encode(ByteArray(data))|))
  {
    hide At, EncodeString, ReadStringAt;
    CodeRead(BYTE_ARRAY_CODE, EncodeString(data), buf, pos);
    StringRoundTrip(data, buf, pos + 1);
  }

  lemma LeafValueRoundTrip(l: Leaf, buf: seq<byte>, pos: nat)
    requires LeafWellFormed(l) && At(buf, pos, Encode(LeafValue(l))) && |Encode(LeafValue(l))| <= MAX_INT32
    ensures Decode(buf, pos) == Ok(Read(Norm(LeafValue(l)), pos + |Encode(LeafValue(l))|))
  {
    hide At, EncodeLeaf, DecodeLeaf, NormLeaf, LeafWellFormed;
    CodeRead(l.Kind().Code(), EncodeLeaf(l), buf, pos);
    LeafRoundTrip(l, buf, pos + 1);
  }

  lemma {:induction false} LeafArrayRoundTrip(v: Value, buf: seq<byte>, pos: nat)
    requires v.LeafArray? && WellFormed(v) && At(buf, pos, Encode(v)) && |Encode(v)| <= MAX_INT32
    ensures Decode(buf, pos) == Ok(Read(Norm(v), pos + |Encode(v)|))
    decreases v, 0
  {
    hide At, EncodeAll, AllWellFormed, NormAll, DecodeCounted;
    CodeRead(v.kind.ArrayCode(), LE(4, |v.elems|) + EncodeAll(v.elems), buf, pos);
    CountedRoundTrip(Some(v.kind), v.elems, buf, pos + 1);
  }

  lemma {:induction false} ObjectArrayRoundTrip(v: Value, buf: seq<byte>, pos: nat)
    requires v.ObjectArray? && WellFormed(v) && At(buf, pos, Encode(v)) && |Encode(v)| <= MAX_INT32
    ensures Decode(buf, pos) == Ok(Read(Norm(v), pos + |Encode(v)|))
    decreases v, 0
  {
    hide At, EncodeAll, AllWellFormed, NormAll, DecodeCounted;
    var counted := LE(4, |v.elems|) + EncodeAll(v.elems);
    CodeRead(OBJECT_ARRAY_CODE, LE(4, OBJECT_CODE) + counted, buf, pos);
    AtSplit(buf, pos + 1, LE(4, OBJECT_CODE), counted);
    ClassRead(OBJECT_CODE, buf, pos + 1);
    CountedRoundTrip(None, v.elems, buf, pos + 5);
  }

  lemma ClassRead(id: int32, buf: seq<byte>, pos: nat)
    requires id != UNREGISTERED_CODE && At(buf, pos, LE(4, id))
    ensures ReadClassAt(buf, pos) == Ok(Read(id, pos + 4))
  {
    Int32AtWritten(buf, pos, id);
  }

  lemma {:induction false} CollectionRoundTrip(v: Value, buf: seq<byte>, pos: nat)
    requires v.Collection? && WellFormed(v) && At(buf, pos, Encode(v)) && |Encode(v)| <= MAX_INT32
    ensures Decode(buf, pos) == Ok(Read(Norm(v), pos + |Encode(v)|))
    decreases v, 0
  {
    hide At, EncodeAll, AllWellFormed, NormAll, DecodeSeq;
    var elems := v.elems;
    CodeRead(COLLECTION_CODE, LE(4, |elems|) + (LE(1, v.collKind) + EncodeAll(elems)), buf, pos);
    EncodeAllLength(elems);
    KindRead(v.collKind, |elems|, EncodeAll(elems), buf, pos + 1);
    SeqRoundTrip(None, elems, buf, pos + 6, []);
    assert [] + NormAll(elems) == NormAll(elems);
  }

  lemma {:induction false} MapRoundTrip(v: Value, buf: seq<byte>, pos: nat)
    requires v.Map? && WellFormed(v) && At(buf, pos, Encode(v)) && |Encode(v)| <= MAX_INT32
    ensures Decode(buf, pos) == Ok(Read(Norm(v), pos + |Encode(v)|))
    decreases v, 0
  {
    hide At, EncodeEntries, EntriesWellFormed, NormEntries, DecodeEntries;
    var entries := v.entries;
    CodeRead(MAP_CODE, LE(4, |entries|) + (LE(1, v.mapKind) + EncodeEntries(entries)), buf, pos);
    EncodeEntriesLength(entries);
    KindRead(v.mapKind, |entries|, EncodeEntries(entries), buf, pos + 1);
    EntriesRoundTrip(entries, buf, pos + 6, []);
    assert [] + NormEntries(entries) == NormEntries(entries);
  }

  lemma KindRead(kind: int8, n: nat, body: seq<byte>, buf: seq<byte>, pos: nat)
    requires n <= MAX_INT32 && At(buf, pos, LE(4, n) + (LE(1, kind) + body))
    ensures |buf| - pos >= 5 && Int32At(buf, pos) == n && Int8At(buf, pos + 4) == kind
    ensures At(buf, pos + 5, body)
  {
    AtSplit(buf, pos, LE(4, n), LE(1, kind) + body);
    AtSplit(buf, pos + 4, LE(1, kind), body);
    Int32AtWritten(buf, pos, n);
    Int8AtWritten(buf, pos + 4, kind);
  }

  lemma AppendCons<T>(acc: seq<T>, x: T, rest: seq<T>)
    ensures acc + [x] + rest == acc + ([x] + rest)
  {
  }

  predicate Expected(expected: Option<LeafKind>, vs: seq<Value>) {
    expected.Some? ==> forall i :: 0 <= i < |vs| ==> IsElement(expected.value, vs[i])
  }

  lemma {:induction false} CountedRoundTrip(expected: Option<LeafKind>, vs: seq<Value>, buf: seq<byte>, pos: nat)
    requires AllWellFormed(vs) && Expected(expected, vs)
    requires At(buf, pos, LE(4, |vs|) + EncodeAll(vs)) && |EncodeAll(vs)| <= MAX_INT32
    ensures DecodeCounted(expected, buf, pos) == Ok(Read(NormAll(vs), pos + 4 + |EncodeAll(vs)|))
    decreases vs, 1
  {
    hide At, EncodeAll, DecodeSeq, NormAll, AllWellFormed, Expected;
    EncodeAllLength(vs);
    AtSplit(buf, pos, LE(4, |vs|), EncodeAll(vs));
    Int32AtWritten(buf, pos, |vs|);
    SeqRoundTrip(expected, vs, buf, pos + 4, []);
    assert [] + NormAll(vs) == NormAll(vs);
  }

  lemma ElementIsValue(buf: seq<byte>, pos: nat)
    ensures DecodeElement(None, buf, pos) == Decode(buf, pos)
  {
  }

  // The checked reader of typed arrays agrees with the general one on elements of its kind.
  lemma ElementRead(kind: LeafKind, v: Value, buf: seq<byte>, pos: nat)
    requires WellFormed(v) && IsElement(kind, v)
    requires At(buf, pos, Encode(v)) && |Encode(v)| <= MAX_INT32
    ensures DecodeElement(Some(kind), buf, pos) == Ok(Read(Norm(v), pos + |Encode(v)|))
  {
    hide At, DecodeLeaf, EncodeLeaf, NormLeaf, LeafWellFormed;
    if v.Null? {
      Int8AtWritten(buf, pos, NULL_CODE);
    } else {
      LeafElementRead(v.leaf, buf, pos);
    }
  }

  lemma LeafElementRead(l: Leaf, buf: seq<byte>, pos: nat)
    requires LeafWellFormed(l)
    requires At(buf, pos, LE(1, l.Kind().Code()) + EncodeLeaf(l)) && 1 + |EncodeLeaf(l)| <= MAX_INT32
    ensures DecodeElement(Some(l.Kind()), buf, pos) == Ok(Read(LeafValue(NormLeaf(l)), pos + 1 + |EncodeLeaf(l)|))
  {
    hide At, EncodeLeaf, NormLeaf, LeafWellFormed, DecodeLeaf;
    AtSplit(buf, pos, LE(1, l.Kind().Code()), EncodeLeaf(l));
    Int8AtWritten(buf, pos, l.Kind().Code());
    LeafRoundTrip(l, buf, pos + 1);
  }

  lemma {:induction false} SeqRoundTrip(expected: Option<LeafKind>, vs: seq<Value>, buf: seq<byte>, pos: nat, acc: seq<Value>)
    requires AllWellFormed(vs) && Expected(expected, vs)
    requires At(buf, pos, EncodeAll(vs)) && |EncodeAll(vs)| <= MAX_INT32
    ensures DecodeSeq(expected, buf, pos, |vs|, acc) == Ok(Read(acc + NormAll(vs), pos + |EncodeAll(vs)|))
    decreases vs, 0
  {
    hide Encode, WellFormed, Norm, DecodeElement, At;
    if vs == [] {
      assert acc + NormAll(vs) == acc;
    } else {
      AtSplit(buf, pos, Encode(vs[0]), EncodeAll(vs[1..]));
      if expected.Some? {
        ElementRead(expected.value, vs[0], buf, pos);
      } else {
        ElementIsValue(buf, pos);
        ValueRoundTrip(vs[0], buf, pos);
      }
      SeqRoundTrip(expected, vs[1..], buf, pos + |Encode(vs[0])|, acc + [Norm(vs[0])]);
      AppendCons(acc, Norm(vs[0]), NormAll(vs[1..]));
    }
  }

  lemma {:induction false} EntriesRoundTrip(es: seq<Entry>, buf: seq<byte>, pos: nat, acc: seq<Entry>)
    requires EntriesWellFormed(es)
    requires At(buf, pos, EncodeEntries(es)) && |EncodeEntries(es)| <= MAX_INT32
    ensures DecodeEntries(buf, pos, |es|, acc) == Ok(Read(acc + NormEntries(es), pos + |EncodeEntries(es)|))
    decreases es, 0
  {
    hide EncodeEntry, EntryWellFormed, NormEntry, DecodeEntry, At;
    if es == [] {
      assert acc + NormEntries(es) == acc;
    } else {
      AtSplit(buf, pos, EncodeEntry(es[0]), EncodeEntries(es[1..]));
      EntryRoundTrip(es[0], buf, pos);
      EntriesRoundTrip(es[1..], buf, pos + |EncodeEntry(es[0])|, acc + [NormEntry(es[0])]);
      AppendCons(acc, NormEntry(es[0]), NormEntries(es[1..]));
    }
  }

  lemma {:induction false} EntryRoundTrip(e: Entry, buf: seq<byte>, pos: nat)
    requires EntryWellFormed(e)
    requires At(buf, pos, EncodeEntry(e)) && |EncodeEntry(e)| <= MAX_INT32
    ensures DecodeEntry(buf, pos) == Ok(Read(NormEntry(e), pos + |EncodeEntry(e)|))
    decreases e, 2
  {
    hide At, Encode, WellFormed, Norm, Decode;
    AtSplit(buf, pos, Encode(e.key), Encode(e.value));
    ValueRoundTrip(e.key, buf, pos);
    ValueRoundTrip(e.value, buf, pos + |Encode(e.key)|);
  }

  // No encoding is a proper prefix of another: if two written values start at the same place,
  // they are the same value and take the same bytes.
  lemma Unambiguous(v: Value, w: Value, buf: seq<byte>, pos: nat)
    requires WellFormed(v) && At(buf, pos, Encode(v)) && |Encode(v)| <= MAX_INT32
    requires WellFormed(w) && At(buf, pos, Encode(w)) && |Encode(w)| <= MAX_INT32
    ensures Norm(v) == Norm(w) && Encode(v) == Encode(w)
  {
    ValueRoundTrip(v, buf, pos);
    ValueRoundTrip(w, buf, pos);
  }

  // The length check of binary objects runs after their first byte is consumed, so an object of
  // exactly one header (no field) needs a byte behind it; larger objects need nothing.
  lemma HeaderOnlyObject(data: seq<byte>, buf: seq<byte>, pos: nat)
    requires |data| == HEADER_LENGTH && data[0] == BINARY_OBJECT_CODE
    requires Int32At(data, LENGTH_POS) == |data| && Int32At(data, TYPE_ID_POS) != UNREGISTERED_CODE
    requires At(buf, pos, data)
    ensures Decode(buf, pos) == Ok(Read(Object(data), pos + |data|)) <==> pos + |data| < |buf|
    ensures pos + |data| == |buf| ==> Decode(buf, pos) == Err(InvalidStream)
  {
    Widths();
    assert buf[pos..pos + 1] == [BINARY_OBJECT_CODE];
    assert LE(1, BINARY_OBJECT_CODE) == [BINARY_OBJECT_CODE] + LE(0, 0);
    Int8AtWritten(buf, pos, BINARY_OBJECT_CODE);
    AtSlice(buf, pos, data, LENGTH_POS, LENGTH_POS + 4);
    assert buf[pos + LENGTH_POS..pos + LENGTH_POS + 4] == data[LENGTH_POS..LENGTH_POS + 4];
  }
}
