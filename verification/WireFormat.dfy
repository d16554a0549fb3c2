// The bytes of written values and objects (marshaller.go, binary_object.go), position by position.
module WireFormat {
  import opened Bytes
  import opened Streams
  import opened Scalars
  import opened Values
  import opened Codec
  import opened ObjectLayout
  import SchemaIds

  // ------------------------------------------------------------------- values

  // The type codes and widths of the protocol.
  lemma TypeCodes()
    ensures PByte.Code() == 1 && PShort.Code() == 2 && PInt.Code() == 3 && PLong.Code() == 4
    ensures PFloat.Code() == 5 && PDouble.Code() == 6 && PChar.Code() == 7 && PBool.Code() == 8
    ensures forall p: Prim :: p.ArrayCode() == p.Code() + 11
    ensures PByte.Width() == PBool.Width() == 1 && PShort.Width() == PChar.Width() == 2
    ensures PInt.Width() == PFloat.Width() == 4 && PLong.Width() == PDouble.Width() == 8
    ensures KString.Code() == 9 && KUuid.Code() == 10 && KDate.Code() == 11
    ensures KDecimal.Code() == 30 && KTimestamp.Code() == 33 && KTime.Code() == 36
    ensures KString.ArrayCode() == 20 && KUuid.ArrayCode() == 21 && KDate.ArrayCode() == 22
    ensures KDecimal.ArrayCode() == 31 && KTimestamp.ArrayCode() == 34 && KTime.ArrayCode() == 37
  {
  }

  lemma CodeAtFront(code: byte, rest: seq<byte>)
    ensures (LE(1, code) + rest)[0] == code && (LE(1, code) + rest)[1..] == rest
  {
    assert LE(1, code) == [code] + LE(0, 0);
  }

  lemma NilFormat(v: Value)
    requires v.Null? || v.NullOf?
    ensures Encode(v) == [101]
  {
    assert LE(1, NULL_CODE) == [101] + LE(0, 0);
  }

  // A type code and the integer, little-endian.
  lemma ScalarFormat(v: Value)
    requires v.Scalar? || v.Unsigned?
    ensures var data := Encode(v);
      && |data| == 1 + v.prim.Width() && data[0] == v.prim.Code()
      && forall i :: 0 <= i < v.prim.Width() ==> data[1 + i] == v.v / Pow256(i) % 256
  {
    CodeAtFront(v.prim.Code(), LE(v.prim.Width(), v.v));
    forall i | 0 <= i < v.prim.Width() ensures Encode(v)[1 + i] == v.v / Pow256(i) % 256 {
      LEDigits(v.prim.Width(), v.v, i);
    }
  }

  // A type code, the number of bytes, and the bytes.
  lemma BytesFormat(v: Value)
    requires (v.ByteArray? && |v.data| <= MAX_INT32) || (v.LeafValue? && v.leaf.Str? && |v.leaf.chars| <= MAX_INT32)
    ensures var data, text := Encode(v), if v.ByteArray? then v.data else v.leaf.chars;
      && |data| == 5 + |text| && data[0] == (if v.ByteArray? then 12 else 9)
      && Int32At(data, 1) == |text| && data[5..] == text
  {
    var text := if v.ByteArray? then v.data else v.leaf.chars;
    CodeAtFront(if v.ByteArray? then 12 else 9, EncodeString(text));
    assert At(Encode(v), 1, LE(4, |text|));
    Int32AtWritten(Encode(v), 1, |text|);
  }

  lemma {:induction false} IntsFormat(width: nat, vs: seq<int>, i: nat)
    requires i < |vs|
    ensures At(EncodeInts(width, vs), width * i, LE(width, vs[i]))
    decreases i
  {
    hide LE;
    if i == 0 {
      assert EncodeInts(width, vs)[0..width] == LE(width, vs[0]);
    } else {
      IntsFormat(width, vs[1..], i - 1);
      AtShift(LE(width, vs[0]), EncodeInts(width, vs[1..]), width * (i - 1), LE(width, vs[i]));
      assert width * i == width + width * (i - 1);
    }
  }

  // A type code, the number of elements, and the elements, little-endian.
  lemma PrimArrayFormat(v: Value)
    requires (v.PrimArray? || v.UnsignedArray?) && |v.vs| <= MAX_INT32
    ensures var data, w := Encode(v), v.prim.Width();
      && |data| == 5 + w * |v.vs| && data[0] == v.prim.Code() + 11 && Int32At(data, 1) == |v.vs|
      && forall i :: 0 <= i < |v.vs| ==> At(data[5..], w * i, LE(w, v.vs[i]))
  {
    hide LE, EncodeInts;
    var data, w := Encode(v), v.prim.Width();
    CodeAtFront(v.prim.ArrayCode(), LE(4, |v.vs|) + EncodeInts(w, v.vs));
    assert data[5..] == EncodeInts(w, v.vs) && At(data, 1, LE(4, |v.vs|));
    Int32AtWritten(data, 1, |v.vs|);
    hide At, Encode;
    forall i | 0 <= i < |v.vs| ensures At(data[5..], w * i, LE(w, v.vs[i])) {
      IntsFormat(w, v.vs, i);
    }
  }

  // Both halves of a uuid are turned around.
  lemma UuidFormat(u: Uuid)
    ensures var data := Encode(LeafValue(Id(u)));
      |data| == 17 && data[0] == 10 && data[1..9] == Reverse(u[..8]) && data[9..] == Reverse(u[8..])
  {
    hide LE, FromLE;
    var hi, lo := Reverse(u[..8]), Reverse(u[8..]);
    LEOfFromLE(hi);
    LEOfFromLE(lo);
    CodeAtFront(10, hi + lo);
    assert Encode(LeafValue(Id(u))) == LE(1, 10) + (hi + lo);
  }

  // Dates and times are milliseconds; a timestamp adds the nanoseconds below them.
  lemma TimeFormat(l: Leaf)
    requires (l.Date? || l.Time? || l.Stamp?) && LeafWellFormed(l)
    ensures var data := Encode(LeafValue(l));
      match l
      case Date(millis) => |data| == 9 && data[0] == 11 && Int64At(data, 1) == millis
      case Time(millis) => |data| == 9 && data[0] == 36 && Int64At(data, 1) == millis
      case Stamp(t) =>
        && |data| == 13 && data[0] == 33
        && Int64At(data, 1) == t.seconds * 1000 + t.nanos / 1_000_000 && Int32At(data, 9) == t.nanos % 1_000_000
      case _ => true
  {
    hide LE;
    var data := Encode(LeafValue(l));
    match l
    case Date(millis) =>
      CodeAtFront(11, LE(8, millis));
      Int64AtWritten(data, 1, millis);
    case Time(millis) =>
      CodeAtFront(36, LE(8, millis));
      Int64AtWritten(data, 1, millis);
    case Stamp(t) =>
      CodeAtFront(33, EncodeTimestamp(t));
      MillisExact(t);
      Int64Fixed(t.seconds * 1000 + t.nanos / NANOS_PER_MILLI);
      assert At(data, 1, LE(8, Millis(t)) + LE(4, t.nanos % NANOS_PER_MILLI));
      AtSplit(data, 1, LE(8, Millis(t)), LE(4, t.nanos % NANOS_PER_MILLI));
      Int64AtWritten(data, 1, Millis(t));
      Int32AtWritten(data, 9, t.nanos % NANOS_PER_MILLI);
  }

  // A decimal: the negated exponent, the number of bytes, and the coefficient, most significant byte
  // first, with the sign in the topmost bit and no byte more than that takes.
  lemma DecimalFormat(d: Decimal)
    requires |EncodeDecimal(d)| <= MAX_INT32 && d.exponent > -0x8000_0000
    ensures var data := Encode(LeafValue(Dec(d)));
      && |data| >= 10 && data[0] == 30
      && Int32At(data, 1) == -d.exponent && Int32At(data, 5) == |data| - 9
      && (data[9] >= 128 <==> d.negative)
      && FromBigEndian([data[9] % 128] + data[10..]) == d.coeff
      && (data[9] % 128 == 0 && |data| > 10 ==> data[10] >= 128)
  {
    hide LE, FromBigEndian, BigEndian;
    var data, c := Encode(LeafValue(Dec(d))), SignedMagnitude(d);
    CodeAtFront(30, EncodeDecimal(d));
    var exponent, length := LE(4, Neg32(d.exponent)), LE(4, |c|);
    assert At(data, 1, exponent + length + c);
    AtSplit(data, 1, exponent + length, c);
    AtSplit(data, 1, exponent, length);
    Int32Fixed(-d.exponent);
    Int32AtWritten(data, 1, Neg32(d.exponent));
    Int32AtWritten(data, 5, |c|);
    assert data[9..] == c;
    MagnitudeFormat(d.coeff);
    assert [data[9] % 128] + data[10..] == Magnitude(d.coeff);
  }

  lemma MagnitudeFormat(coeff: nat)
    ensures FromBigEndian(Magnitude(coeff)) == coeff
    ensures Magnitude(coeff)[0] == 0 && |Magnitude(coeff)| > 1 ==> Magnitude(coeff)[1] >= 128
  {
    FromBigEndianOfBigEndian(coeff);
    LeadingZero(BigEndian(coeff));
  }

  // ---------------------------------------------------------------- containers

  // Arrays, collections and maps: a type code, for object arrays the element type -1, the number of
  // elements, for collections and maps their kind, and the elements.
  lemma ContainerFormat(v: Value)
    requires v.LeafArray? || v.ObjectArray? || v.Collection?
    requires |v.elems| <= MAX_INT32
    ensures var data, n := Encode(v), |v.elems|;
      match v
      case LeafArray(kind, elems) =>
        |data| >= 5 && data[0] == kind.ArrayCode() && Int32At(data, 1) == n && data[5..] == EncodeAll(elems)
      case ObjectArray(elems) =>
        |data| >= 9 && data[0] == 23 && Int32At(data, 1) == -1 && Int32At(data, 5) == n && data[9..] == EncodeAll(elems)
      case Collection(kind, elems) =>
        |data| >= 6 && data[0] == 24 && Int32At(data, 1) == n && Int8At(data, 5) == kind && data[6..] == EncodeAll(elems)
      case _ => true
  {
    hide LE, EncodeAll;
    var data, n := Encode(v), |v.elems|;
    match v
    case LeafArray(kind, elems) =>
      CodeAtFront(kind.ArrayCode(), LE(4, n) + EncodeAll(elems));
      assert At(data, 1, LE(4, n));
      Int32AtWritten(data, 1, n);
    case ObjectArray(elems) =>
      CodeAtFront(23, LE(4, OBJECT_CODE) + (LE(4, n) + EncodeAll(elems)));
      assert At(data, 1, LE(4, OBJECT_CODE)) && At(data, 5, LE(4, n));
      Int32AtWritten(data, 1, OBJECT_CODE);
      Int32AtWritten(data, 5, n);
    case Collection(kind, elems) =>
      CodeAtFront(24, LE(4, n) + (LE(1, kind) + EncodeAll(elems)));
      assert At(data, 1, LE(4, n)) && At(data, 5, LE(1, kind));
      Int32AtWritten(data, 1, n);
      Int8AtWritten(data, 5, kind);
  }

  lemma MapFormat(v: Value)
    requires v.Map? && |v.entries| <= MAX_INT32
    ensures var data := Encode(v);
      && |data| >= 6 && data[0] == 25 && Int32At(data, 1) == |v.entries| && Int8At(data, 5) == v.mapKind
      && data[6..] == EncodeEntries(v.entries)
  {
    hide LE, EncodeEntries;
    var data, n := Encode(v), |v.entries|;
    CodeAtFront(25, LE(4, n) + (LE(1, v.mapKind) + EncodeEntries(v.entries)));
    assert At(data, 1, LE(4, n)) && At(data, 5, LE(1, v.mapKind));
    Int32AtWritten(data, 1, n);
    Int8AtWritten(data, 5, v.mapKind);
  }

  // The elements stand one behind the other, in order.
  lemma {:induction false} ElementsFormat(vs: seq<Value>, i: nat)
    requires i < |vs|
    ensures At(EncodeAll(vs), |EncodeAll(vs[..i])|, Encode(vs[i]))
    decreases i
  {
    hide Encode;
    if i == 0 {
      assert EncodeAll(vs)[0..|Encode(vs[0])|] == Encode(vs[0]);
    } else {
      ElementsFormat(vs[1..], i - 1);
      assert vs[..i][1..] == vs[1..][..i - 1];
      AtShift(Encode(vs[0]), EncodeAll(vs[1..]), |EncodeAll(vs[1..][..i - 1])|, Encode(vs[i]));
    }
  }

  // And so do the entries, each with its key and then its value.
  lemma {:induction false} EntriesFormat(es: seq<Entry>, i: nat)
    requires i < |es|
    ensures At(EncodeEntries(es), |EncodeEntries(es[..i])|, Encode(es[i].key) + Encode(es[i].value))
    decreases i
  {
    hide Encode;
    if i == 0 {
      assert EncodeEntries(es)[0..|EncodeEntry(es[0])|] == EncodeEntry(es[0]);
    } else {
      EntriesFormat(es[1..], i - 1);
      assert es[..i][1..] == es[1..][..i - 1];
      AtShift(EncodeEntry(es[0]), EncodeEntries(es[1..]), |EncodeEntries(es[1..][..i - 1])|,
              Encode(es[i].key) + Encode(es[i].value));
    }
  }

  // ------------------------------------------------------------------ objects

  // The header of a finished object: type code, version, flags, type id, hash of the body, length, schema
  // id and position of the footer.
  lemma HeaderFormat(compact: bool, typeId: int32, typeName: seq<byte>, ids: seq<int32>, values: seq<Value>)
    requires |ids| == |values| && HEADER_LENGTH + |ObjectBody(typeId, typeName, values)| <= MAX_INT32
    requires |ObjectBytes(compact, typeId, typeName, ids, values)| <= MAX_INT32
    ensures var data, body := ObjectBytes(compact, typeId, typeName, ids, values), ObjectBody(typeId, typeName, values);
      var start := 24 + |ClassName(typeId, typeName)|;
      && |data| >= 24 + |body| && data[24..24 + |body|] == body
      && data[0] == 103 && data[1] == 1
      && Int32At(data, 4) == typeId && Int32At(data, 8) == SliceHash(body) && Int32At(data, 12) == |data|
      && Int32At(data, 16) == SchemaIds.SchemaId(ids) && UIntAt(data, 20, 4) == 24 + |body|
      && UIntAt(data, 2, 2) == 1 + (if compact then 32 else 0) + (if ids == [] then 0 else 2)
           + (if ids == [] then 0
              else
                var last := SlotsFrom(start, ids, values)[|ids| - 1].offset;
                if last < 0x100 then 8 else if last < 0x1_0000 then 16 else 0)
  {
    hide Header, Footer, EncodeAll, ClassName, SlotsFrom, FooterOf, SliceHash, SchemaIds.SchemaId, LE, TypeIdResolves;
    var data, body := ObjectBytes(compact, typeId, typeName, ids, values), ObjectBody(typeId, typeName, values);
    var start := HEADER_LENGTH + |ClassName(typeId, typeName)|;
    var slots := SlotsFrom(start, ids, values);
    SlotsLength(start, ids, values);
    ObjectParts(compact, typeId, body, slots, data);
    HeaderRead(compact, typeId, body, slots, data);
    HashAndVersion(compact, typeId, body, slots, data);
  }

  lemma HashAndVersion(compact: bool, typeId: int32, body: seq<byte>, slots: seq<Slot>, data: seq<byte>)
    requires At(data, 0, Header(compact, typeId, body, slots))
    ensures |data| >= 24 && data[0] == 103 && data[1] == 1 && Int32At(data, 8) == SliceHash(body)
  {
    hide Flags, SliceHash, SchemaIds.SchemaId, Footer, At, LE;
    var flags := Flags(compact, slots);
    var code, version, rest := LE(1, BINARY_OBJECT_CODE), LE(1, PROTO_VERSION), LE(2, flags) + LE(4, typeId);
    var front, hash, back := HeaderFront(compact, typeId, slots), LE(4, SliceHash(body)), HeaderBack(compact, body, slots);
    assert front == code + (version + rest);
    AtSplit(data, 0, front + hash, back);
    AtSplit(data, 0, front, hash);
    AtSplit(data, 0, code, version + rest);
    AtSplit(data, 1, version, rest);
    Int32AtWritten(data, 8, SliceHash(body));
    ByteAt(data, 0, 103);
    ByteAt(data, 1, 1);
    AtLength(data, 0, Header(compact, typeId, body, slots));
  }

  lemma ByteAt(data: seq<byte>, pos: nat, b: byte)
    requires At(data, pos, LE(1, b))
    ensures pos < |data| && data[pos] == b
  {
    assert data[pos] == data[pos..pos + 1][0] && LE(1, b) == [b] + LE(0, 0);
  }

  // The footer: for every field in order its id, unless the footer is compact, and its offset.
  lemma FooterFormat(compact: bool, slots: seq<Slot>, i: nat)
    requires i < |slots| && 0 <= slots[i].offset < Pow256(OffsetSize(slots))
    ensures var size := OffsetSize(slots);
      var footer := Footer(compact, size, slots);
      if compact then
        && size * (i + 1) <= |footer| == size * |slots| && UIntAt(footer, size * i, size) == slots[i].offset
      else
        && (4 + size) * (i + 1) <= |footer| == (4 + size) * |slots|
        && Int32At(footer, (4 + size) * i) == slots[i].id && UIntAt(footer, (4 + size) * i + 4, size) == slots[i].offset
  {
    hide Footer, LE;
    var size := OffsetSize(slots);
    var footer := Footer(compact, size, slots);
    FooterLength(compact, size, slots);
    OffsetRead(compact, size, slots, i);
    FooterAt(compact, size, slots, i);
    if !compact {
      AtSplit(footer, (4 + size) * i, LE(4, slots[i].id), LE(size, slots[i].offset));
      Int32AtWritten(footer, (4 + size) * i, slots[i].id);
    }
  }
}
