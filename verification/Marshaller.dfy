// The stream methods of marshaller.go.  Writing is specified by Codec.Encode and reading by
// Codec.Decode.
module Marshaller {
  import opened Wrappers
  import opened Bytes
  import opened Streams
  import opened Scalars
  import opened Values
  import opened Codec

  // ----------------------------------------------------------------- writing

  lemma {:induction false} EncodeAllSnoc(vs: seq<Value>, i: nat)
    requires i < |vs|
    ensures EncodeAll(vs[..i + 1]) == EncodeAll(vs[..i]) + Encode(vs[i])
    decreases i
  {
    hide Encode;
    if i == 0 {
      assert vs[..1][1..] == [];
    } else {
      EncodeAllSnoc(vs[1..], i - 1);
      assert vs[..i + 1][1..] == vs[1..][..i];
      assert vs[..i][1..] == vs[1..][..i - 1];
    }
  }

  lemma {:induction false} EncodeEntriesSnoc(es: seq<Entry>, i: nat)
    requires i < |es|
    ensures EncodeEntries(es[..i + 1]) == EncodeEntries(es[..i]) + EncodeEntry(es[i])
    decreases i
  {
    hide EncodeEntry;
    if i == 0 {
      assert es[..1][1..] == [];
    } else {
      EncodeEntriesSnoc(es[1..], i - 1);
      assert es[..i + 1][1..] == es[1..][..i];
      assert es[..i][1..] == es[1..][..i - 1];
    }
  }

  lemma {:induction false} AllWellFormedAt(vs: seq<Value>)
    requires AllWellFormed(vs)
    ensures forall i :: 0 <= i < |vs| ==> WellFormed(vs[i])
  {
    hide WellFormed;
    if vs != [] {
      AllWellFormedAt(vs[1..]);
    }
  }

  lemma {:induction false} EntriesWellFormedAt(es: seq<Entry>)
    requires EntriesWellFormed(es)
    ensures forall i :: 0 <= i < |es| ==> EntryWellFormed(es[i])
  {
    hide EntryWellFormed;
    if es != [] {
      EntriesWellFormedAt(es[1..]);
    }
  }

  // A stream to which `data` has been written since it held buf at pos.
  ghost predicate Wrote(out: OutputStream, buf: seq<byte>, pos: nat, data: seq<byte>)
    reads out
  {
    out.buffer == Overwrite(buf, pos, data) && out.position == pos + |data|
  }

  method WriteString(out: OutputStream, chars: seq<byte>)
    requires out.position + |EncodeString(chars)| <= MAX_INT32
    modifies out
    ensures Wrote(out, old(out.buffer), old(out.position), EncodeString(chars))
  {
    hide Overwrite;
    OverwriteTwice(out.buffer, out.position, LE(4, |chars|), chars);
    out.WriteInt32(|chars|);
    out.WriteBytes(chars);
  }

  // marshalString: never null.
  method MarshalString(out: OutputStream, chars: seq<byte>)
    requires out.position + 1 + |EncodeString(chars)| <= MAX_INT32
    modifies out
    ensures Wrote(out, old(out.buffer), old(out.position), LE(1, STRING_CODE) + EncodeString(chars))
  {
    hide Overwrite;
    OverwriteTwice(out.buffer, out.position, LE(1, STRING_CODE), EncodeString(chars));
    out.WriteInt8(STRING_CODE);
    WriteString(out, chars);
  }

  method WriteUuid(out: OutputStream, u: Uuid)
    requires out.position + 16 <= MAX_INT32
    modifies out
    ensures Wrote(out, old(out.buffer), old(out.position), EncodeUuid(u))
  {
    hide Overwrite;
    var hi, lo := FromLE(Reverse(u[..8])), FromLE(Reverse(u[8..]));
    OverwriteTwice(out.buffer, out.position, LE(8, hi), LE(8, lo));
    out.WriteInt64(hi);
    out.WriteInt64(lo);
  }

  method WriteLeaf(out: OutputStream, l: Leaf)
    requires out.position + |EncodeLeaf(l)| <= MAX_INT32
    modifies out
    ensures Wrote(out, old(out.buffer), old(out.position), EncodeLeaf(l))
  {
    hide Overwrite, EncodeString, EncodeUuid, EncodeTimestamp, EncodeDecimal;
    match l
    case Str(chars) => WriteString(out, chars);
    case Id(uuid) => WriteUuid(out, uuid);
    case Date(millis) => out.WriteInt64(millis);
    case Time(millis) => out.WriteInt64(millis);
    case Stamp(t) => WriteTimestamp(out, t);
    case Dec(d) => WriteDecimal(out, d);
  }

  method WritePrim(out: OutputStream, p: Prim, x: int)
    requires out.position + p.Width() <= MAX_INT32
    modifies out
    ensures Wrote(out, old(out.buffer), old(out.position), LE(p.Width(), x))
  {
    match p
    case PByte | PBool => out.WriteInt8(x);
    case PShort | PChar => out.WriteInt16(x);
    case PInt | PFloat => out.WriteInt32(x);
    case PLong | PDouble => out.WriteInt64(x);
  }

  // The fast path: one copy of the whole array.
  method WritePrims(out: OutputStream, p: Prim, vs: seq<int>)
    requires vs != [] && out.position + 4 + p.Width() * |vs| <= MAX_INT32
    modifies out
    ensures Wrote(out, old(out.buffer), old(out.position), LE(4, |vs|) + EncodeInts(p.Width(), vs))
  {
    hide Overwrite;
    OverwriteTwice(out.buffer, out.position, LE(4, |vs|), EncodeInts(p.Width(), vs));
    out.WriteInt32(|vs|);
    out.WriteBytes(EncodeInts(p.Width(), vs));
  }

  method MarshalPrim(out: OutputStream, p: Prim, x: int)
    requires out.position + 1 + p.Width() <= MAX_INT32
    modifies out
    ensures Wrote(out, old(out.buffer), old(out.position), LE(1, p.Code()) + LE(p.Width(), x))
  {
    hide Overwrite;
    OverwriteTwice(out.buffer, out.position, LE(1, p.Code()), LE(p.Width(), x));
    out.WriteInt8(p.Code());
    WritePrim(out, p, x);
  }

  method MarshalPrims(out: OutputStream, p: Prim, vs: seq<int>)
    requires vs != [] && out.position + 5 + p.Width() * |vs| <= MAX_INT32
    modifies out
    ensures Wrote(out, old(out.buffer), old(out.position),
                  LE(1, p.ArrayCode()) + (LE(4, |vs|) + EncodeInts(p.Width(), vs)))
  {
    hide Overwrite, EncodeInts;
    OverwriteTwice(out.buffer, out.position, LE(1, p.ArrayCode()), LE(4, |vs|) + EncodeInts(p.Width(), vs));
    out.WriteInt8(p.ArrayCode());
    WritePrims(out, p, vs);
  }

  predicate IsFlat(v: Value) {
    v.Null? || v.NullOf? || v.Scalar? || v.Unsigned? || v.ByteArray? || v.PrimArray? || v.UnsignedArray?
  }

  // The branches of Marshal for scalars and primitive arrays.
  method MarshalFlat(out: OutputStream, v: Value)
    requires IsFlat(v) && WellFormed(v) && out.position + |Encode(v)| <= MAX_INT32
    modifies out
    ensures Wrote(out, old(out.buffer), old(out.position), Encode(v))
  {
    hide Overwrite, EncodeString, EncodeInts;
    ghost var buf, pos := out.buffer, out.position;
    match v
    case Null | NullOf(_) =>
      out.WriteInt8(NULL_CODE);
    case Scalar(p, x) => MarshalPrim(out, p, x);
    case Unsigned(p, x) => MarshalPrim(out, p, x);
    case ByteArray(data) =>
      OverwriteTwice(buf, pos, LE(1, BYTE_ARRAY_CODE), EncodeString(data));
      out.WriteInt8(BYTE_ARRAY_CODE);
      WriteString(out, data);
    case PrimArray(p, vs) => MarshalPrims(out, p, vs);
    case UnsignedArray(p, vs) => MarshalPrims(out, p, vs);
  }

  method Marshal(out: OutputStream, v: Value)
    requires WellFormed(v) && out.position + |Encode(v)| <= MAX_INT32
    modifies out
    ensures Wrote(out, old(out.buffer), old(out.position), Encode(v))
    decreases v, 1
  {
    hide Overwrite, Grow, EncodeLeaf, EncodeAll, EncodeEntries, ObjectWellFormed, AllWellFormed, EntriesWellFormed;
    ghost var buf, pos := out.buffer, out.position;
    match v
    case Null | NullOf(_) | Scalar(_, _) | Unsigned(_, _) | ByteArray(_) | PrimArray(_, _) | UnsignedArray(_, _) =>
      MarshalFlat(out, v);
    case LeafValue(l) =>
      OverwriteTwice(buf, pos, LE(1, l.Kind().Code()), EncodeLeaf(l));
      out.WriteInt8(l.Kind().Code());
      WriteLeaf(out, l);
    case LeafArray(kind, elems) =>
      OverwriteTwice(buf, pos, LE(1, kind.ArrayCode()), LE(4, |elems|) + EncodeAll(elems));
      out.WriteInt8(kind.ArrayCode());
      WriteSequence(out, elems);
    case ObjectArray(_) => MarshalObjectArray(out, v);
    case Collection(_, _) => MarshalCollection(out, v);
    case Map(_, _) => MarshalMap(out, v);
    case Object(data) =>
      out.WriteBytes(data);
  }

  method MarshalObjectArray(out: OutputStream, v: Value)
    requires v.ObjectArray? && WellFormed(v) && out.position + |Encode(v)| <= MAX_INT32
    modifies out
    ensures Wrote(out, old(out.buffer), old(out.position), Encode(v))
    decreases v, 0
  {
    hide Overwrite, EncodeAll, AllWellFormed;
    OverwriteTwice(out.buffer, out.position, LE(1, OBJECT_ARRAY_CODE),
                   LE(4, OBJECT_CODE) + (LE(4, |v.elems|) + EncodeAll(v.elems)));
    out.WriteInt8(OBJECT_ARRAY_CODE);
    WriteObjectElements(out, v.elems);
  }

  method WriteObjectElements(out: OutputStream, vs: seq<Value>)
    requires AllWellFormed(vs) && out.position + 8 + |EncodeAll(vs)| <= MAX_INT32
    modifies out
    ensures Wrote(out, old(out.buffer), old(out.position), LE(4, OBJECT_CODE) + (LE(4, |vs|) + EncodeAll(vs)))
    decreases vs, 2
  {
    hide Overwrite, EncodeAll, AllWellFormed;
    OverwriteTwice(out.buffer, out.position, LE(4, OBJECT_CODE), LE(4, |vs|) + EncodeAll(vs));
    out.WriteInt32(OBJECT_CODE);
    WriteSequence(out, vs);
  }

  method MarshalCollection(out: OutputStream, v: Value)
    requires v.Collection? && WellFormed(v) && out.position + |Encode(v)| <= MAX_INT32
    modifies out
    ensures Wrote(out, old(out.buffer), old(out.position), Encode(v))
    decreases v, 0
  {
    hide Overwrite, EncodeAll, AllWellFormed;
    OverwriteTwice(out.buffer, out.position, LE(1, COLLECTION_CODE),
                   LE(4, |v.elems|) + (LE(1, v.collKind) + EncodeAll(v.elems)));
    out.WriteInt8(COLLECTION_CODE);
    WriteSequenceWithKind(out, v.collKind, v.elems);
  }

  method MarshalMap(out: OutputStream, v: Value)
    requires v.Map? && WellFormed(v) && out.position + |Encode(v)| <= MAX_INT32
    modifies out
    ensures Wrote(out, old(out.buffer), old(out.position), Encode(v))
    decreases v, 0
  {
    hide Overwrite, EncodeEntries, EntriesWellFormed;
    OverwriteTwice(out.buffer, out.position, LE(1, MAP_CODE),
                   LE(4, |v.entries|) + (LE(1, v.mapKind) + EncodeEntries(v.entries)));
    out.WriteInt8(MAP_CODE);
    WriteEntriesWithKind(out, v.mapKind, v.entries);
  }

  method WriteSequence(out: OutputStream, vs: seq<Value>)
    requires AllWellFormed(vs) && out.position + 4 + |EncodeAll(vs)| <= MAX_INT32
    modifies out
    ensures Wrote(out, old(out.buffer), old(out.position), LE(4, |vs|) + EncodeAll(vs))
    decreases vs, 1
  {
    hide Overwrite, EncodeAll, AllWellFormed;
    OverwriteTwice(out.buffer, out.position, LE(4, |vs|), EncodeAll(vs));
    out.WriteInt32(|vs|);
    MarshalAll(out, vs);
  }

  method WriteSequenceWithKind(out: OutputStream, kind: int8, vs: seq<Value>)
    requires AllWellFormed(vs) && out.position + 5 + |EncodeAll(vs)| <= MAX_INT32
    modifies out
    ensures Wrote(out, old(out.buffer), old(out.position), LE(4, |vs|) + (LE(1, kind) + EncodeAll(vs)))
    decreases vs, 1
  {
    hide Overwrite, EncodeAll, AllWellFormed;
    OverwriteTwice(out.buffer, out.position, LE(4, |vs|), LE(1, kind) + EncodeAll(vs));
    OverwriteTwice(Overwrite(out.buffer, out.position, LE(4, |vs|)), out.position + 4, LE(1, kind), EncodeAll(vs));
    out.WriteInt32(|vs|);
    out.WriteInt8(kind);
    MarshalAll(out, vs);
  }

  method WriteEntriesWithKind(out: OutputStream, kind: int8, es: seq<Entry>)
    requires EntriesWellFormed(es) && out.position + 5 + |EncodeEntries(es)| <= MAX_INT32
    modifies out
    ensures Wrote(out, old(out.buffer), old(out.position), LE(4, |es|) + (LE(1, kind) + EncodeEntries(es)))
    decreases es, 1
  {
    hide Overwrite, EncodeEntries, EntriesWellFormed;
    OverwriteTwice(out.buffer, out.position, LE(4, |es|), LE(1, kind) + EncodeEntries(es));
    OverwriteTwice(Overwrite(out.buffer, out.position, LE(4, |es|)), out.position + 4, LE(1, kind), EncodeEntries(es));
    out.WriteInt32(|es|);
    out.WriteInt8(kind);
    MarshalEntries(out, es);
  }

  lemma {:induction false} EncodeAllPrefix(vs: seq<Value>, i: nat)
    requires i <= |vs|
    ensures |EncodeAll(vs[..i])| <= |EncodeAll(vs)|
    decreases |vs| - i
  {
    hide EncodeAll;
    if i == |vs| {
      assert vs[..i] == vs;
    } else {
      EncodeAllSnoc(vs, i);
      EncodeAllPrefix(vs, i + 1);
    }
  }

  lemma {:induction false} EncodeEntriesPrefix(es: seq<Entry>, i: nat)
    requires i <= |es|
    ensures |EncodeEntries(es[..i])| <= |EncodeEntries(es)|
    decreases |es| - i
  {
    hide EncodeEntries;
    if i == |es| {
      assert es[..i] == es;
    } else {
      EncodeEntriesSnoc(es, i);
      EncodeEntriesPrefix(es, i + 1);
    }
  }

  // The element loop of writeSequence.
  method MarshalAll(out: OutputStream, vs: seq<Value>)
    requires AllWellFormed(vs) && out.position + |EncodeAll(vs)| <= MAX_INT32
    requires out.position <= |out.buffer|
    modifies out
    ensures Wrote(out, old(out.buffer), old(out.position), EncodeAll(vs))
    decreases vs, 0
  {
    hide WellFormed, Encode, Overwrite;
    AllWellFormedAt(vs);
    OverwriteNothing(out.buffer, out.position);
    var idx := 0;
    while idx < |vs|
      invariant 0 <= idx <= |vs|
      invariant Wrote(out, old(out.buffer), old(out.position), EncodeAll(vs[..idx]))
    {
      EncodeAllSnoc(vs, idx);
      EncodeAllPrefix(vs, idx + 1);
      OverwriteTwice(old(out.buffer), old(out.position), EncodeAll(vs[..idx]), Encode(vs[idx]));
      Marshal(out, vs[idx]);
      idx := idx + 1;
    }
    assert vs[..idx] == vs;
  }

  method MarshalEntries(out: OutputStream, es: seq<Entry>)
    requires EntriesWellFormed(es) && out.position + |EncodeEntries(es)| <= MAX_INT32
    requires out.position <= |out.buffer|
    modifies out
    ensures Wrote(out, old(out.buffer), old(out.position), EncodeEntries(es))
    decreases es, 0
  {
    hide EntryWellFormed, EncodeEntry, Overwrite;
    EntriesWellFormedAt(es);
    OverwriteNothing(out.buffer, out.position);
    var idx := 0;
    while idx < |es|
      invariant 0 <= idx <= |es|
      invariant Wrote(out, old(out.buffer), old(out.position), EncodeEntries(es[..idx]))
    {
      EncodeEntriesSnoc(es, idx);
      EncodeEntriesPrefix(es, idx + 1);
      OverwriteTwice(old(out.buffer), old(out.position), EncodeEntries(es[..idx]), EncodeEntry(es[idx]));
      MarshalEntry(out, es[idx]);
      idx := idx + 1;
    }
    assert es[..idx] == es;
  }

  method MarshalEntry(out: OutputStream, e: Entry)
    requires EntryWellFormed(e) && out.position + |EncodeEntry(e)| <= MAX_INT32
    modifies out
    ensures Wrote(out, old(out.buffer), old(out.position), EncodeEntry(e))
    decreases e, 2
  {
    hide WellFormed, Encode, Overwrite;
    OverwriteTwice(out.buffer, out.position, Encode(e.key), Encode(e.value));
    Marshal(out, e.key);
    Marshal(out, e.value);
  }

  // ----------------------------------------------------------------- reading

  // A stream method returned what the parser says about the bytes at pos, and on success stopped
  // behind them.
  ghost predicate Reads<T>(input: InputStream, r: Result<T>, spec: Result<Read<T>>)
    reads input
  {
    match spec
    case Ok(read) => r == Ok(read.value) && input.position == read.next
    case Err(e) => r == Err(e)
  }

  method ReadString(input: InputStream) returns (r: Result<seq<byte>>)
    modifies input
    ensures Reads(input, r, ReadStringAt(input.buffer, old(input.position)))
  {
    if input.Available() < 4 {
      return Err(InvalidStream);
    }
    var size := input.ReadInt32();
    if input.Available() < size {
      return Err(InvalidStream);
    }
    if size < 0 {
      return Err(Panic);
    }
    var chars := input.ReadBytes(size);
    return Ok(chars);
  }

  method UnmarshalString(input: InputStream) returns (r: Result<seq<byte>>)
    modifies input
    ensures Reads(input, r, UnmarshalStringAt(input.buffer, old(input.position)))
  {
    hide ReadStringAt;
    if input.Available() < 1 {
      return Err(InvalidStream);
    }
    var code := input.ReadInt8();
    if code == NULL_CODE {
      return Ok([]);
    } else if code == STRING_CODE {
      r := ReadString(input);
    } else {
      return Err(UnexpectedType(code));
    }
  }

  method ReadUuid(input: InputStream) returns (r: Result<Uuid>)
    modifies input
    ensures Reads(input, r, ReadUuidAt(input.buffer, old(input.position)))
  {
    if input.Available() < 16 {
      return Err(InvalidStream);
    }
    var hi := input.ReadUInt(8);
    var lo := input.ReadUInt(8);
    return Ok(Reverse(LE(8, hi)) + Reverse(LE(8, lo)));
  }

  method ReadClass(input: InputStream) returns (r: Result<int32>)
    modifies input
    ensures Reads(input, r, ReadClassAt(input.buffer, old(input.position)))
  {
    hide UnmarshalStringAt;
    if input.Available() < 4 {
      return Err(InvalidStream);
    }
    var id := input.ReadInt32();
    if id == UNREGISTERED_CODE {
      var name := UnmarshalString(input);
      if name.Err? {
        return Err(name.error);
      }
    }
    return Ok(id);
  }

  method ReadLeaf(kind: LeafKind, input: InputStream) returns (r: Result<Leaf>)
    modifies input
    ensures Reads(input, r, DecodeLeaf(kind, input.buffer, old(input.position)))
  {
    hide ReadStringAt, ReadUuidAt, DecodeTimestamp, DecodeDecimal;
    match kind
    case KString =>
      var s := ReadString(input);
      r := match s case Ok(chars) => Ok(Str(chars)) case Err(e) => Err(e);
    case KUuid =>
      var u := ReadUuid(input);
      r := match u case Ok(uuid) => Ok(Id(uuid)) case Err(e) => Err(e);
    case KDate =>
      if input.Available() < 8 {
        return Err(InvalidStream);
      }
      var millis := input.ReadInt64();
      r := Ok(Date(millis));
    case KTime =>
      if input.Available() < 8 {
        return Err(InvalidStream);
      }
      var millis := input.ReadInt64();
      r := Ok(Time(millis));
    case KTimestamp =>
      var t := ReadTimestamp(input);
      r := match t case Ok(timestamp) => Ok(Stamp(timestamp)) case Err(e) => Err(e);
    case KDecimal =>
      var d := ReadDecimal(input);
      r := match d case Ok(decimal) => Ok(Dec(decimal)) case Err(e) => Err(e);
  }

  method ReadPrim(p: Prim, input: InputStream) returns (x: int)
    requires input.Available() >= p.Width()
    modifies input
    ensures x == PrimAt(p, input.buffer, old(input.position))
    ensures input.position == old(input.position) + p.Width()
  {
    ghost var pos := input.position;
    var u := input.ReadUInt(p.Width());
    if p.PBool? {
      assert input.buffer[pos..pos + 1] == [input.buffer[pos]];
      x := if u == 1 then 1 else 0;
    } else if p.IsSigned() {
      x := Signed(p.Width(), u);
    } else {
      x := u;
    }
  }

  lemma {:induction false} PrimsAtSnoc(p: Prim, buf: seq<byte>, pos: nat, n: nat)
    requires pos + (n + 1) * p.Width() <= |buf|
    ensures pos + n * p.Width() + p.Width() <= |buf|
    ensures PrimsAt(p, buf, pos, n + 1) == PrimsAt(p, buf, pos, n) + [PrimAt(p, buf, pos + n * p.Width())]
    decreases n
  {
    hide PrimAt;
    assert (n + 1) * p.Width() == n * p.Width() + p.Width();
    if n > 0 {
      assert n * p.Width() == p.Width() + (n - 1) * p.Width();
      PrimsAtSnoc(p, buf, pos + p.Width(), n - 1);
    }
  }

  // The element loop of the array readers.
  method ReadPrims(p: Prim, n: nat, input: InputStream) returns (vs: seq<int>)
    requires input.Available() >= n * p.Width()
    modifies input
    ensures vs == PrimsAt(p, input.buffer, old(input.position), n)
    ensures input.position == old(input.position) + n * p.Width()
  {
    hide PrimAt;
    ghost var pos := input.position;
    vs := [];
    for i := 0 to n
      invariant input.position == pos + i * p.Width()
      invariant pos + i * p.Width() <= |input.buffer| && vs == PrimsAt(p, input.buffer, pos, i)
    {
      assert (i + 1) * p.Width() <= n * p.Width() by {
        assert n * p.Width() - (i + 1) * p.Width() == (n - (i + 1)) * p.Width();
      }
      PrimsAtSnoc(p, input.buffer, pos, i);
      var x := ReadPrim(p, input);
      vs := vs + [x];
    }
  }

  method ReadPrimArray(p: Prim, input: InputStream) returns (r: Result<Value>)
    modifies input
    ensures Reads(input, r, DecodePrimArray(p, input.buffer, old(input.position)))
  {
    hide PrimsAt;
    if input.Available() < 4 {
      return Err(InvalidStream);
    }
    var n := input.ReadInt32();
    if input.Available() < n * p.Width() {
      return Err(InvalidStream);
    }
    if n <= 0 {
      return Err(Panic);
    }
    var vs := ReadPrims(p, n, input);
    return Ok(PrimArray(p, vs));
  }

  // readBinaryObject: goes back to the first byte, which is already consumed.
  method ReadBinaryObject(input: InputStream) returns (r: Result<Value>)
    requires input.position >= 1
    modifies input
    ensures Reads(input, r, DecodeObject(input.buffer, old(input.position)))
  {
    hide UnmarshalStringAt;
    if input.Available() < HEADER_LENGTH {
      return Err(InvalidStream);
    }
    var start := input.position - 1;
    input.SetPosition(start + LENGTH_POS);
    var size := input.ReadInt32();
    input.SetPosition(start);
    if input.Available() < size {
      return Err(InvalidStream);
    }
    if size < 0 {
      return Err(Panic);
    }
    var data := input.ReadBytes(size);
    if |data| < HEADER_LENGTH {
      return Err(CorruptedObject);
    }
    if Int32At(data, TYPE_ID_POS) == UNREGISTERED_CODE {
      var header := new InputStream(data, HEADER_LENGTH);
      var name := UnmarshalString(header);
      if name.Err? {
        return Err(CorruptedObject);
      }
    }
    return Ok(Object(data));
  }

  method Unmarshal(input: InputStream) returns (r: Result<Value>)
    modifies input
    ensures Reads(input, r, Decode(input.buffer, old(input.position)))
    decreases |input.buffer| - input.position, 0
  {
    hide DecodeBody;
    if input.Available() < 1 {
      return Err(InvalidStream);
    }
    var code := input.ReadInt8();
    r := UnmarshalBody(code, input);
  }

  method UnmarshalBody(code: int8, input: InputStream) returns (r: Result<Value>)
    requires 1 <= input.position <= |input.buffer|
    modifies input
    ensures Reads(input, r, DecodeBody(code, input.buffer, old(input.position)))
    decreases |input.buffer| - input.position, 3
  {
    hide PrimAt, ReadStringAt, ReadClassAt, DecodeLeaf, DecodePrimArray, DecodeCounted, DecodeCollection,
         DecodeMap, DecodeObject;
    if code == NULL_CODE {
      return Ok(Null);
    } else if PrimOfCode(code).Some? {
      var p := PrimOfCode(code).value;
      if input.Available() < p.Width() {
        return Err(InvalidStream);
      }
      var x := ReadPrim(p, input);
      return Ok(Scalar(p, x));
    } else if code == BYTE_ARRAY_CODE {
      var s := ReadString(input);
      r := match s case Ok(data) => Ok(ByteArray(data)) case Err(e) => Err(e);
    } else if PrimOfArrayCode(code).Some? {
      r := ReadPrimArray(PrimOfArrayCode(code).value, input);
    } else if LeafOfCode(code).Some? {
      var l := ReadLeaf(LeafOfCode(code).value, input);
      r := match l case Ok(leaf) => Ok(LeafValue(leaf)) case Err(e) => Err(e);
    } else if LeafOfArrayCode(code).Some? {
      var kind := LeafOfArrayCode(code).value;
      var a := ReadSlice(Some(kind), input);
      r := match a case Ok(elems) => Ok(LeafArray(kind, elems)) case Err(e) => Err(e);
    } else if code == OBJECT_ARRAY_CODE {
      var cls := ReadClass(input);
      if cls.Err? {
        return Err(cls.error);
      }
      var a := ReadSlice(None, input);
      r := match a case Ok(elems) => Ok(ObjectArray(elems)) case Err(e) => Err(e);
    } else if code == COLLECTION_CODE {
      r := ReadCollection(input);
    } else if code == MAP_CODE {
      r := ReadMap(input);
    } else if code == BINARY_OBJECT_CODE {
      r := ReadBinaryObject(input);
    } else {
      r := Err(UnsupportedType(code));
    }
  }

  method ReadSlice(expected: Option<LeafKind>, input: InputStream) returns (r: Result<seq<Value>>)
    modifies input
    ensures Reads(input, r, DecodeCounted(expected, input.buffer, old(input.position)))
    decreases |input.buffer| - input.position, 2
  {
    hide DecodeSeq;
    if input.Available() < 4 {
      return Err(InvalidStream);
    }
    var n := input.ReadInt32();
    if n < 0 {
      return Err(Panic);
    }
    r := ReadSequence(expected, n, input);
  }

  method ReadCollection(input: InputStream) returns (r: Result<Value>)
    modifies input
    ensures Reads(input, r, DecodeCollection(input.buffer, old(input.position)))
    decreases |input.buffer| - input.position, 2
  {
    hide DecodeSeq;
    if input.Available() < 4 {
      return Err(InvalidStream);
    }
    var n := input.ReadInt32();
    if input.Available() < 1 {
      return Err(InvalidStream);
    }
    var kind := input.ReadInt8();
    if n < 0 {
      return Err(Panic);
    }
    var a := ReadSequence(None, n, input);
    r := match a case Ok(elems) => Ok(Collection(kind, elems)) case Err(e) => Err(e);
  }

  method ReadMap(input: InputStream) returns (r: Result<Value>)
    modifies input
    ensures Reads(input, r, DecodeMap(input.buffer, old(input.position)))
    decreases |input.buffer| - input.position, 2
  {
    hide DecodeEntries;
    if input.Available() < 4 {
      return Err(InvalidStream);
    }
    var n := input.ReadInt32();
    if input.Available() < 1 {
      return Err(InvalidStream);
    }
    var kind := input.ReadInt8();
    if n < 0 {
      return Err(Panic);
    }
    var a := ReadEntries(n, input);
    r := match a case Ok(entries) => Ok(Map(kind, entries)) case Err(e) => Err(e);
  }

  method ReadElement(expected: Option<LeafKind>, input: InputStream) returns (r: Result<Value>)
    modifies input
    ensures Reads(input, r, DecodeElement(expected, input.buffer, old(input.position)))
    decreases |input.buffer| - input.position, 1
  {
    hide DecodeLeaf, Decode;
    if expected.None? {
      r := Unmarshal(input);
    } else if input.Available() < 1 {
      return Err(InvalidStream);
    } else {
      var code := input.ReadInt8();
      if code == NULL_CODE {
        return Ok(Null);
      } else if code != expected.value.Code() {
        return Err(UnexpectedType(code));
      }
      var l := ReadLeaf(expected.value, input);
      r := match l case Ok(leaf) => Ok(LeafValue(leaf)) case Err(e) => Err(e);
    }
  }

  // readSequence over the values of an array or collection.
  method ReadSequence(expected: Option<LeafKind>, n: nat, input: InputStream) returns (r: Result<seq<Value>>)
    requires input.position <= |input.buffer|
    modifies input
    ensures Reads(input, r, DecodeSeq(expected, input.buffer, old(input.position), n, []))
    decreases |input.buffer| - input.position, 2
  {
    hide DecodeElement;
    ghost var pos := input.position;
    var coll: seq<Value> := [];
    for i := 0 to n
      invariant pos <= input.position <= |input.buffer|
      invariant DecodeSeq(expected, input.buffer, pos, n, [])
        == DecodeSeq(expected, input.buffer, input.position, n - i, coll)
    {
      var e := ReadElement(expected, input);
      if e.Err? {
        return Err(e.error);
      }
      coll := coll + [e.value];
    }
    return Ok(coll);
  }

  method ReadEntries(n: nat, input: InputStream) returns (r: Result<seq<Entry>>)
    requires input.position <= |input.buffer|
    modifies input
    ensures Reads(input, r, DecodeEntries(input.buffer, old(input.position), n, []))
    decreases |input.buffer| - input.position, 2
  {
    hide DecodeEntry;
    ghost var pos := input.position;
    var entries: seq<Entry> := [];
    for i := 0 to n
      invariant pos <= input.position <= |input.buffer|
      invariant DecodeEntries(input.buffer, pos, n, [])
        == DecodeEntries(input.buffer, input.position, n - i, entries)
    {
      var e := ReadEntry(input);
      if e.Err? {
        return Err(e.error);
      }
      entries := entries + [e.value];
    }
    return Ok(entries);
  }

  method ReadEntry(input: InputStream) returns (r: Result<Entry>)
    modifies input
    ensures Reads(input, r, DecodeEntry(input.buffer, old(input.position)))
    decreases |input.buffer| - input.position, 1
  {
    hide Decode;
    var key := Unmarshal(input);
    if key.Err? {
      return Err(key.error);
    }
    var value := Unmarshal(input);
    if value.Err? {
      return Err(value.error);
    }
    return Ok(Entry(key.value, value.value));
  }
}
