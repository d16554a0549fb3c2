// What becomes of streams that are cut short or hold wrong codes and sizes (marshaller.go, buffer.go).
module ReadOutcomes {
  import opened Wrappers
  import opened Bytes
  import opened Streams
  import opened Scalars
  import opened Values
  import opened Codec
  import opened ObjectLayout
  import RoundTrip
  import MetaMessage

  // The type codes that can be read.
  predicate IsReadable(code: int) {
    1 <= code <= 25 || code in {30, 31, 33, 34, 36, 37, 101, 103}
  }

  // A value of any other code is refused with that code.
  lemma OtherCodesRefused(buf: seq<byte>, pos: nat)
    requires pos < |buf| && !IsReadable(Int8At(buf, pos))
    ensures Decode(buf, pos) == Err(UnsupportedType(Int8At(buf, pos)))
  {
    hide DecodeLeaf, DecodePrimArray, DecodeObject, DecodeCollection, DecodeMap, DecodeCounted, ReadStringAt, ReadClassAt, PrimAt;
  }

  // Where a size says that `n` bytes follow it: whether they are there, and what happens if not.
  datatype Sized = Fits | CutShort | Negative

  function SizeAt(buf: seq<byte>, pos: nat, width: nat): Sized {
    if |buf| < pos + 4 then CutShort
    else if |buf| < pos + 4 + Int32At(buf, pos) * width then CutShort
    else if Int32At(buf, pos) < 0 then Negative
    else Fits
  }

  // Strings and byte arrays: bytes that are not there are an error, a negative size panics.
  lemma StringOutcome(buf: seq<byte>, pos: nat)
    ensures match SizeAt(buf, pos, 1)
      case Fits => ReadStringAt(buf, pos).Ok? && ReadStringAt(buf, pos).value.next == pos + 4 + |ReadStringAt(buf, pos).value.value|
      case CutShort => ReadStringAt(buf, pos) == Err(InvalidStream)
      case Negative => ReadStringAt(buf, pos) == Err(Panic)
  {
  }

  // Primitive arrays: the same, and an empty one panics as well, since its first element is looked at.
  lemma PrimArrayOutcome(p: Prim, buf: seq<byte>, pos: nat)
    ensures var r := DecodePrimArray(p, buf, pos);
      match SizeAt(buf, pos, p.Width())
      case Fits => if Int32At(buf, pos) == 0 then r == Err(Panic) else r.Ok? && |r.value.value.vs| == Int32At(buf, pos)
      case CutShort => r == Err(InvalidStream)
      case Negative => r == Err(Panic)
  {
    hide PrimsAt;
  }

  // Objects: whether the bytes are there is asked for one byte too many, the type code being consumed, and
  // an object of an unregistered type needs a class name that can be read.
  lemma ObjectOutcome(buf: seq<byte>, start: nat)
    requires start < |buf| && Int8At(buf, start) == 103
    ensures var r := Decode(buf, start);
      if |buf| < start + 25 then r == Err(InvalidStream)
      else
        var length := Int32At(buf, start + 12);
        if |buf| < start + length then r == Err(InvalidStream)
        else if length < 0 then r == Err(Panic)
        else
          var data := buf[start..start + length];
          if |data| >= 24 && (Int32At(data, 4) != 0 || UnmarshalStringAt(data, 24).Ok?)
          then r == Ok(Read(Object(data), start + length)) else r == Err(CorruptedObject)
  {
    hide UnmarshalStringAt;
  }

  // Elements of typed arrays: null, or a value of the array's own code.
  lemma ElementOutcome(kind: LeafKind, buf: seq<byte>, pos: nat)
    ensures var r := DecodeElement(Some(kind), buf, pos);
      if |buf| <= pos then r == Err(InvalidStream)
      else if Int8At(buf, pos) == 101 then r == Ok(Read(Null, pos + 1))
      else if Int8At(buf, pos) != kind.Code() then r == Err(UnexpectedType(Int8At(buf, pos)))
      else r.Ok? ==> IsElement(kind, r.value.value)
  {
    hide DecodeLeaf;
  }

  // Booleans: only a one is true.
  lemma BoolOutcome(buf: seq<byte>, pos: nat)
    requires pos + 2 <= |buf| && Int8At(buf, pos) == 8
    ensures Decode(buf, pos) == Ok(Read(Scalar(PBool, if buf[pos + 1] == 1 then 1 else 0), pos + 2))
  {
    assert PrimOfCode(8) == Some(PBool);
  }

  // Object arrays: the name of an unregistered element type is read and left aside.
  lemma NamedArrayOutcome(name: seq<byte>, buf: seq<byte>, pos: nat)
    requires At(buf, pos, LE(4, 0) + (LE(1, 9) + EncodeString(name))) && |EncodeString(name)| <= MAX_INT32
    ensures ReadClassAt(buf, pos) == Ok(Read(0, pos + 9 + |name|))
  {
    AtSplit(buf, pos, LE(4, 0), LE(1, 9) + EncodeString(name));
    AtSplit(buf, pos + 4, LE(1, 9), EncodeString(name));
    Int32AtWritten(buf, pos, 0);
    Int8AtWritten(buf, pos + 4, 9);
    RoundTrip.StringRoundTrip(name, buf, pos + 5);
  }

  // Bytes behind the end of the stream read as zero.
  lemma BytesBehindEnd(buf: seq<byte>, pos: nat, size: nat, i: nat)
    requires pos <= |buf| && i < size
    ensures BytesAt(buf, pos, size)[i] == if pos + i < |buf| then buf[pos + i] else 0
  {
  }

  // Decimals: the exponent is checked for, the size is not; no coefficient is an error.
  lemma DecimalOutcome(buf: seq<byte>, pos: nat)
    ensures var r := DecodeDecimal(buf, pos);
      if |buf| < pos + 4 then r == Err(InvalidStream)
      else if |buf| < pos + 8 then r == Err(Panic)
      else
        && (Int32At(buf, pos + 4) == 0 <==> r == Err(InvalidCoefficient))
        && (Int32At(buf, pos + 4) < 0 <==> r == Err(Panic))
        && (Int32At(buf, pos + 4) > 0 <==> r.Ok?)
  {
  }

  // Lists of a metadata message: a negative count reads as no entries.
  lemma NegativeCount(kind: MetaMessage.ItemKind, buf: seq<byte>, pos: nat)
    requires pos + 4 <= |buf| && Int32At(buf, pos) <= 0
    ensures MetaMessage.DecodeList(kind, buf, pos) == Ok(Read([], pos + 4))
  {
  }

  // -------------------------------------------------------------- raw data

  // Adding four where the bit is not set changes no other bit.
  lemma FlagBits(flags: nat)
    requires !HasFlag(flags, HAS_RAW)
    ensures HasFlag(flags + 4, HAS_RAW)
    ensures HasFlag(flags + 4, HAS_SCHEMA) == HasFlag(flags, HAS_SCHEMA)
    ensures HasFlag(flags + 4, OFFSET_ONE_BYTE) == HasFlag(flags, OFFSET_ONE_BYTE)
    ensures HasFlag(flags + 4, OFFSET_TWO_BYTES) == HasFlag(flags, OFFSET_TWO_BYTES)
    ensures HasFlag(flags + 4, COMPACT_FOOTER) == HasFlag(flags, COMPACT_FOOTER)
  {
    LowerBits(flags);
    NoCarry(flags, 1);
    NoCarry(flags, 2);
    NoCarry(flags, 4);
  }

  lemma LowerBits(flags: nat)
    requires flags / 4 % 2 == 0
    ensures (flags + 4) / 4 % 2 == 1 && (flags + 4) / 2 % 2 == flags / 2 % 2
  {
  }

  lemma NoCarry(flags: nat, k: nat)
    requires flags / 4 % 2 == 0 && k > 0
    ensures (flags + 4) / (8 * k) == flags / (8 * k)
  {
    var q, r := flags / 8, flags % 8;
    var a, b := q / k, q % k;
    assert flags == (8 * k) * a + (8 * b + r) by {
      assert q == k * a + b;
    }
    assert r < 4;
    DivModUnique(flags, 8 * k, a, 8 * b + r);
    DivModUnique(flags + 4, 8 * k, a, 8 * b + r + 4);
  }

  // With the raw flag the last four bytes of an object are no part of its footer.
  lemma RawFooter(data: seq<byte>, raw: seq<byte>)
    requires |data| >= 24 && |raw| == |data| + 4 && raw[4..|data|] == data[4..]
    requires !HasFlag(UIntAt(data, 2, 2), HAS_RAW) && UIntAt(raw, 2, 2) == UIntAt(data, 2, 2) + 4
    requires 24 <= UIntAt(data, 20, 4) <= |data|
    ensures FooterOf(raw) == FooterOf(data)
  {
    hide HasFlag, FromLE;
    Widths();
    FlagBits(UIntAt(data, 2, 2));
    forall i | 4 <= i < |data| ensures raw[i] == data[i] {
      assert raw[4..|data|][i - 4] == data[4..][i - 4];
    }
    assert raw[20..24] == data[20..24];
    assert UIntAt(raw, 20, 4) == UIntAt(data, 20, 4);
    assert raw[UIntAt(data, 20, 4)..|raw| - 4] == data[UIntAt(data, 20, 4)..|data|];
    assert FlagsOf(raw) == FlagsOf(data) + 4 && FlagsOf(data) == UIntAt(data, 2, 2);
  }

  // An object of an unregistered type without a readable class name has no fields to look up.
  lemma NamelessLookup(data: seq<byte>, schema: Option<seq<int32>>, id: int32)
    requires |data| >= 24 && HasFlag(UIntAt(data, 2, 2), HAS_SCHEMA)
    requires Int32At(data, 4) == 0 && UnmarshalStringAt(data, 24).Err?
    ensures LookupField(data, schema, id) == Err(CorruptedObject)
  {
  }
}
