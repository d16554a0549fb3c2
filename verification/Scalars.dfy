// The two arithmetic codecs of marshaller.go: decimals and timestamps.
module Scalars {
  import opened Wrappers
  import opened Bytes
  import opened Streams

  // A decoded value and the position after its last byte.
  datatype Read<+T> = Read(value: T, next: nat)

  // ---------------------------------------------------------------- decimals

  // (-1)^negative * coeff * 10^exponent
  datatype Decimal = Decimal(negative: bool, coeff: nat, exponent: int32)

  // 32-bit negation, which maps the least value to itself.
  function Neg32(e: int32): int32 {
    ToInt32(0 - e)
  }

  // Coefficient bytes with a first byte below 0x80.
  function Magnitude(coeff: nat): (c: seq<byte>)
    ensures c != [] && c[0] < 0x80
    ensures |BigEndian(coeff)| <= |c| <= |BigEndian(coeff)| + 1
  {
    var c := BigEndian(coeff);
    if c == [] || c[0] > 0x7F then [0] + c else c
  }

  function SignedMagnitude(d: Decimal): (c: seq<byte>)
    ensures |c| == |Magnitude(d.coeff)|
  {
    var c := Magnitude(d.coeff);
    if d.negative then c[0 := c[0] + 0x80] else c
  }

  function EncodeDecimal(d: Decimal): seq<byte> {
    var c := SignedMagnitude(d);
    LE(4, Neg32(d.exponent)) + LE(4, |c|) + c
  }

  // Splits the sign bit off the first byte.
  function FromSignedMagnitude(c: seq<byte>): (bool, nat)
    requires c != []
  {
    if c[0] >= 0x80 then (true, FromBigEndian(c[0 := c[0] - 0x80])) else (false, FromBigEndian(c))
  }

  function DecodeDecimal(buf: seq<byte>, pos: nat): (r: Result<Read<Decimal>>)
    ensures r.Ok? ==> pos < r.value.next <= |buf|
  {
    if |buf| - pos < 4 then Err(InvalidStream)
    else if |buf| - pos < 8 then Err(Panic)
    else
      var size := Int32At(buf, pos + 4);
      if size == 0 then Err(InvalidCoefficient)
      else if size < 0 then Err(Panic)
      else
        var (sign, coeff) := FromSignedMagnitude(BytesAt(buf, pos + 8, size));
        // Negating a zero coefficient leaves it non-negative.
        Ok(Read(Decimal(sign && coeff != 0, coeff, Neg32(Int32At(buf, pos))),
                if pos + 8 + size <= |buf| then pos + 8 + size else |buf|))
  }

  method SignedCoefficient(d: Decimal) returns (coeff: seq<byte>)
    ensures coeff == SignedMagnitude(d)
  {
    coeff := BigEndian(d.coeff);
    if |coeff| == 0 || coeff[0] > 0x7F {
      coeff := [0] + coeff;
    }
    if d.negative {
      coeff := coeff[0 := coeff[0] + 0x80];
    }
  }

  method WriteDecimal(out: OutputStream, d: Decimal)
    requires out.position + |EncodeDecimal(d)| <= MAX_INT32
    modifies out
    ensures out.buffer == Overwrite(old(out.buffer), old(out.position), EncodeDecimal(d))
    ensures out.position == old(out.position) + |EncodeDecimal(d)|
  {
    hide Overwrite;
    ghost var buf, pos := out.buffer, out.position;
    out.WriteInt32(Neg32(d.exponent));
    var coeff := SignedCoefficient(d);
    out.WriteInt32(|coeff|);
    out.WriteBytes(coeff);
    OverwriteTwice(buf, pos, LE(4, Neg32(d.exponent)), LE(4, |coeff|));
    OverwriteTwice(buf, pos, LE(4, Neg32(d.exponent)) + LE(4, |coeff|), coeff);
  }

  method ReadDecimal(input: InputStream) returns (r: Result<Decimal>)
    modifies input
    ensures r == match DecodeDecimal(input.buffer, old(input.position))
                 case Ok(read) => Ok(read.value) case Err(e) => Err(e)
    ensures r.Ok? ==> input.position == DecodeDecimal(input.buffer, old(input.position)).value.next
  {
    if input.Available() < 4 {
      return Err(InvalidStream);
    }
    var exponent := input.ReadInt32();
    if input.Available() < 4 {
      return Err(Panic);
    }
    var size := input.ReadInt32();
    if size == 0 {
      return Err(InvalidCoefficient);
    } else if size < 0 {
      return Err(Panic);
    }
    var data := input.ReadBytes(size);
    var negative := data[0] >= 0x80;
    if negative {
      data := data[0 := data[0] - 0x80];
    }
    var coeff := FromBigEndian(data);
    return Ok(Decimal(negative && coeff != 0, coeff, Neg32(exponent)));
  }

  lemma Neg32Twice(e: int32)
    ensures Neg32(Neg32(e)) == e
  {
    Widths();
    Int32Fixed(e);
    if e != -0x8000_0000 {
      Int32Fixed(0 - e);
    } else {
      DivModUnique(0 - e, 0x1_0000_0000, 0, 0 - e);
    }
  }

  lemma SignedMagnitudeRoundTrip(d: Decimal)
    ensures FromSignedMagnitude(SignedMagnitude(d)) == (d.negative, d.coeff)
  {
    var c := Magnitude(d.coeff);
    FromBigEndianOfBigEndian(d.coeff);
    LeadingZero(BigEndian(d.coeff));
    assert c[0 := c[0] + 0x80][0 := c[0]] == c;
  }

  // A decimal is read back as it was written, up to the last byte, unless it is a negative zero,
  // which loses its sign.
  lemma DecimalRoundTrip(d: Decimal, buf: seq<byte>, pos: nat)
    requires At(buf, pos, EncodeDecimal(d)) && |EncodeDecimal(d)| <= MAX_INT32
    ensures var r := DecodeDecimal(buf, pos);
      && r == Ok(Read(CanonicalDecimal(d), pos + |EncodeDecimal(d)|))
      && (r.value.value == d <==> !(d.negative && d.coeff == 0))
  {
    var c := SignedMagnitude(d);
    AtSplit(buf, pos, LE(4, Neg32(d.exponent)) + LE(4, |c|), c);
    AtSplit(buf, pos, LE(4, Neg32(d.exponent)), LE(4, |c|));
    Int32AtWritten(buf, pos + 4, |c|);
    Int32AtWritten(buf, pos, Neg32(d.exponent));
    Neg32Twice(d.exponent);
    SignedMagnitudeRoundTrip(d);
  }

  function CanonicalDecimal(d: Decimal): Decimal {
    d.(negative := d.negative && d.coeff != 0)
  }

  // -------------------------------------------------------------- timestamps

  const NANOS_PER_MILLI := 1_000_000
  const NANOS_PER_SECOND := 1_000_000_000

  type nanosecond = n: int | 0 <= n < NANOS_PER_SECOND

  // Seconds since 1970 (possibly negative) and nanoseconds within the second.
  datatype Timestamp = Timestamp(seconds: int64, nanos: nanosecond)

  // Milliseconds in 64-bit arithmetic.
  function Millis(t: Timestamp): int64 {
    ToInt64(ToInt64(t.seconds * 1000) + t.nanos / NANOS_PER_MILLI)
  }

  function EncodeTimestamp(t: Timestamp): (s: seq<byte>)
    ensures |s| == 12
  {
    LE(8, Millis(t)) + LE(4, t.nanos % NANOS_PER_MILLI)
  }

  // time.Unix: nanoseconds outside [0, 10^9) carry into the seconds.
  function UnixTime(seconds: int, nanos: int32): (int, nanosecond) {
    (seconds + nanos / NANOS_PER_SECOND, nanos % NANOS_PER_SECOND)
  }

  function FromMillis(millis: int64, nanos: int32): Timestamp {
    var sum := ToInt32(nanos + ToInt32(TruncMod(millis, 1000) * NANOS_PER_MILLI));
    var (seconds, rest) := UnixTime(TruncDiv(millis, 1000), sum);
    Timestamp(seconds, rest)
  }

  function DecodeTimestamp(buf: seq<byte>, pos: nat): (r: Result<Read<Timestamp>>)
    ensures r.Ok? ==> r.value.next == pos + 12 <= |buf|
  {
    if |buf| - pos < 12 then Err(InvalidStream)
    else Ok(Read(FromMillis(Int64At(buf, pos), Int32At(buf, pos + 8)), pos + 12))
  }

  method WriteTimestamp(out: OutputStream, t: Timestamp)
    requires out.position + 12 <= MAX_INT32
    modifies out
    ensures out.buffer == Overwrite(old(out.buffer), old(out.position), EncodeTimestamp(t))
    ensures out.position == old(out.position) + 12
  {
    hide Overwrite;
    ghost var buf, pos := out.buffer, out.position;
    var millis := ToInt64(t.seconds * 1000);
    var nanos: int := t.nanos;
    millis := ToInt64(millis + nanos / NANOS_PER_MILLI);
    nanos := nanos % NANOS_PER_MILLI;
    out.WriteInt64(millis);
    out.WriteInt32(nanos);
    OverwriteTwice(buf, pos, LE(8, millis), LE(4, nanos));
  }

  method ReadTimestamp(input: InputStream) returns (r: Result<Timestamp>)
    modifies input
    ensures r == match DecodeTimestamp(input.buffer, old(input.position))
                 case Ok(read) => Ok(read.value) case Err(e) => Err(e)
    ensures r.Ok? ==> input.position == old(input.position) + 12
  {
    if input.Available() < 12 {
      return Err(InvalidStream);
    }
    var millis := input.ReadInt64();
    var n := input.ReadInt32();
    var nanos := ToInt32(n + ToInt32(TruncMod(millis, 1000) * NANOS_PER_MILLI));
    var (seconds, rest) := UnixTime(TruncDiv(millis, 1000), nanos);
    return Ok(Timestamp(seconds, rest));
  }

  predicate InInt64(v: int) {
    -0x8000_0000_0000_0000 <= v < 0x8000_0000_0000_0000
  }

  lemma WrapShift(v: int, k: int)
    ensures ToInt64(v + k * 0x1_0000_0000_0000_0000) == ToInt64(v)
  {
    Widths();
    var p := 0x1_0000_0000_0000_0000;
    DivModUnique(v + k * p, p, v / p + k, v % p);
  }

  // ToInt64 differs from its argument by a multiple of 2^64.
  lemma WrapIsShift(v: int) returns (k: int)
    ensures ToInt64(v) == v + k * 0x1_0000_0000_0000_0000
  {
    Widths();
    var p := 0x1_0000_0000_0000_0000;
    k := if 2 * (v % p) < p then -(v / p) else -(v / p) - 1;
  }

  lemma MillisExact(t: Timestamp)
    ensures Millis(t) == ToInt64(t.seconds * 1000 + t.nanos / NANOS_PER_MILLI)
  {
    var k := WrapIsShift(t.seconds * 1000);
    WrapShift(t.seconds * 1000 + t.nanos / NANOS_PER_MILLI, k);
  }

  // The 32-bit sum of the two nanosecond parts never overflows, and the truncated quotient and
  // remainder meet the carry of time.Unix so that times before 1970 come out right.
  lemma FromMillisExact(s: int, q: int, n: int)
    requires InInt64(s * 1000 + q) && 0 <= q < 1000 && 0 <= n < NANOS_PER_MILLI
    ensures FromMillis(s * 1000 + q, n).seconds == s
    ensures FromMillis(s * 1000 + q, n).nanos == q * NANOS_PER_MILLI + n
  {
    var millis: int64 := s * 1000 + q;
    var rem := TruncMod(millis, 1000);
    assert millis >= 0 ==> TruncDiv(millis, 1000) == s && rem == q;
    assert millis < 0 && q == 0 ==> TruncDiv(millis, 1000) == s && rem == 0;
    assert millis < 0 && q > 0 ==> TruncDiv(millis, 1000) == s + 1 && rem == q - 1000;
    Int32Fixed(rem * NANOS_PER_MILLI);
    Int32Fixed(n + rem * NANOS_PER_MILLI);
  }

  // A timestamp survives to the nanosecond exactly when its milliseconds fit in 64 bits.
  lemma TimestampRoundTrip(t: Timestamp, buf: seq<byte>, pos: nat)
    requires At(buf, pos, EncodeTimestamp(t))
    ensures var r := DecodeTimestamp(buf, pos);
      && r.Ok? && r.value.next == pos + 12
      && (r.value.value == t <==> InInt64(t.seconds * 1000 + t.nanos / NANOS_PER_MILLI))
  {
    var n := t.nanos % NANOS_PER_MILLI;
    var q := t.nanos / NANOS_PER_MILLI;
    AtSplit(buf, pos, LE(8, Millis(t)), LE(4, n));
    Int64AtWritten(buf, pos, Millis(t));
    Int32AtWritten(buf, pos + 8, n);
    MillisExact(t);
    var exact := t.seconds * 1000 + q;
    if InInt64(exact) {
      Int64Fixed(exact);
      FromMillisExact(t.seconds, q, n);
    } else {
      // The seconds read back are within the 64-bit milliseconds; those written are not.
      var m := Millis(t);
      FromMillisExact(m / 1000, m % 1000, n);
    }
  }
}
