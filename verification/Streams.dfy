// The growable output stream and the input stream of buffer.go.
module Streams {
  import opened Bytes

  // The buffer once `size` bytes are guaranteed: fresh bytes are zero.
  function Grow(buf: seq<byte>, size: nat): (g: seq<byte>)
    ensures |g| >= size && |g| >= |buf| && g[..|buf|] == buf
  {
    if |buf| < size then buf + Zeros(size - |buf|) else buf
  }

  // The buffer after `data` is copied to `pos`, growing it if needed.
  function Overwrite(buf: seq<byte>, pos: nat, data: seq<byte>): (r: seq<byte>)
    ensures |r| == |Grow(buf, pos + |data|)|
    ensures r[pos..pos + |data|] == data
  {
    var g := Grow(buf, pos + |data|);
    g[..pos] + data + g[pos + |data|..]
  }

  predicate At(buf: seq<byte>, pos: nat, data: seq<byte>) {
    pos + |data| <= |buf| && buf[pos..pos + |data|] == data
  }

  lemma AtSplit(buf: seq<byte>, pos: nat, x: seq<byte>, y: seq<byte>)
    ensures At(buf, pos, x + y) <==> At(buf, pos, x) && At(buf, pos + |x|, y)
  {
    if pos + |x| + |y| <= |buf| {
      var b := buf[pos..pos + |x| + |y|];
      assert b[..|x|] == buf[pos..pos + |x|] && b[|x|..] == buf[pos + |x|..pos + |x| + |y|];
      assert b == b[..|x|] + b[|x|..];
      assert (x + y)[..|x|] == x && (x + y)[|x|..] == y;
    }
  }

  // A part of what stands at pos stands there too.
  lemma AtSlice(buf: seq<byte>, pos: nat, data: seq<byte>, i: nat, j: nat)
    requires At(buf, pos, data) && i <= j <= |data|
    ensures At(buf, pos + i, data[i..j])
  {
    assert data == data[..i] + (data[i..j] + data[j..]);
    AtSplit(buf, pos, data[..i], data[i..j] + data[j..]);
    AtSplit(buf, pos + i, data[i..j], data[j..]);
  }

  // Two writes in a row are one write of both, whatever the buffer held.
  lemma OverwriteTwice(buf: seq<byte>, pos: nat, x: seq<byte>, y: seq<byte>)
    ensures Overwrite(Overwrite(buf, pos, x), pos + |x|, y) == Overwrite(buf, pos, x + y)
  {
    var once := Overwrite(buf, pos, x);
    var l, r := Overwrite(once, pos + |x|, y), Overwrite(buf, pos, x + y);
    assert |l| == |r|;
    var grown := Grow(once, pos + |x| + |y|);
    forall i | 0 <= i < |l| ensures l[i] == r[i] {
      if pos <= i < pos + |x| {
        assert once[pos..pos + |x|][i - pos] == x[i - pos];
        assert once[i] == x[i - pos];
        assert grown[i] == once[i];
        assert l[i] == grown[i];
      }
    }
  }

  lemma OverwriteThrice(buf: seq<byte>, pos: nat, x: seq<byte>, y: seq<byte>, z: seq<byte>)
    ensures Overwrite(Overwrite(Overwrite(buf, pos, x), pos + |x|, y), pos + |x| + |y|, z)
         == Overwrite(buf, pos, x + (y + z))
  {
    hide Overwrite;
    OverwriteTwice(buf, pos, x, y + z);
    OverwriteTwice(Overwrite(buf, pos, x), pos + |x|, y, z);
  }

  // Leaving room for a value, writing on, and going back to write the value.
  lemma OverwriteBefore(buf: seq<byte>, pos: nat, x: seq<byte>, data: seq<byte>)
    ensures Overwrite(Overwrite(Grow(buf, pos + |x|), pos + |x|, data), pos, x) == Overwrite(buf, pos, x + data)
  {
    var grown := Grow(buf, pos + |x|);
    var once := Overwrite(grown, pos + |x|, data);
    var l, r := Overwrite(once, pos, x), Overwrite(buf, pos, x + data);
    assert |l| == |r|;
    forall i | 0 <= i < |l| ensures l[i] == r[i] {
      if i < pos || i >= pos + |x| {
        assert l[i] == once[i];
      }
    }
  }

  lemma OverwriteNothing(buf: seq<byte>, pos: nat)
    requires pos <= |buf|
    ensures Overwrite(buf, pos, []) == buf
  {
  }

  function UIntAt(buf: seq<byte>, pos: nat, n: nat): nat
    requires pos + n <= |buf|
  {
    FromLE(buf[pos..pos + n])
  }

  function IntAt(buf: seq<byte>, pos: nat, n: nat): int
    requires pos + n <= |buf|
  {
    Signed(n, UIntAt(buf, pos, n))
  }

  function Int8At(buf: seq<byte>, pos: nat): (v: int8)
    requires pos + 1 <= |buf|
  {
    Widths();
    IntAt(buf, pos, 1)
  }

  function Int32At(buf: seq<byte>, pos: nat): (v: int32)
    requires pos + 4 <= |buf|
  {
    Widths();
    IntAt(buf, pos, 4)
  }

  function Int64At(buf: seq<byte>, pos: nat): (v: int64)
    requires pos + 8 <= |buf|
  {
    Widths();
    IntAt(buf, pos, 8)
  }

  lemma Int8AtWritten(buf: seq<byte>, pos: nat, v: int8)
    requires At(buf, pos, LE(1, v))
    ensures pos + 1 <= |buf| && Int8At(buf, pos) == v
  {
    Widths();
    SignedRoundTrip(1, v);
  }

  lemma Int32AtWritten(buf: seq<byte>, pos: nat, v: int32)
    requires At(buf, pos, LE(4, v))
    ensures pos + 4 <= |buf| && Int32At(buf, pos) == v
  {
    Int32Fixed(v);
  }

  lemma Int64AtWritten(buf: seq<byte>, pos: nat, v: int64)
    requires At(buf, pos, LE(8, v))
    ensures pos + 8 <= |buf| && Int64At(buf, pos) == v
  {
    Int64Fixed(v);
  }

  // ReadBytes: bytes past the end of the buffer read as zero.
  function BytesAt(buf: seq<byte>, pos: nat, size: nat): (r: seq<byte>)
    requires pos <= |buf|
    ensures |r| == size
    ensures pos + size <= |buf| ==> r == buf[pos..pos + size]
  {
    Grow(buf, pos + size)[pos..pos + size]
  }

  // internal.SliceHashCode: 31-polynomial over signed bytes with 32-bit wrap-around.
  function SliceHash(data: seq<byte>): int32 {
    if data == [] then 1
    else ToInt32(31 * SliceHash(data[..|data| - 1]) + Signed(1, data[|data| - 1]))
  }

  function Pow31(n: nat): nat {
    if n == 0 then 1 else 31 * Pow31(n - 1)
  }

  function SignedByte(b: byte): int {
    if b < 128 then b else (b as int) - 256
  }

  // Each byte, taken as signed, times the power of 31 for the bytes behind it.
  function SignedSum(data: seq<byte>): int {
    if data == [] then 0
    else SignedByte(data[0]) * Pow31(|data| - 1) + SignedSum(data[1..])
  }

  lemma {:induction false} SignedSumSnoc(data: seq<byte>, b: byte)
    ensures SignedSum(data + [b]) == 31 * SignedSum(data) + SignedByte(b)
  {
    if data == [] {
      assert [b][1..] == [];
    } else {
      SignedSumSnoc(data[1..], b);
      var first := SignedByte(data[0]);
      assert (data + [b])[1..] == data[1..] + [b];
      assert first * (31 * Pow31(|data| - 1)) == 31 * (first * Pow31(|data| - 1));
    }
  }

  lemma WrapSum(x: int, s: int)
    ensures ToInt32(31 * ToInt32(x) + s) == ToInt32(31 * x + s)
  {
    Widths();
    var p := 0x1_0000_0000;
    var k := if 2 * (x % p) < p then x / p else x / p + 1;
    assert ToInt32(x) == x - k * p;
    var v := 31 * ToInt32(x) + s;
    assert 31 * x + s == p * (v / p + 31 * k) + v % p by {
      assert p * (31 * k) == 31 * (k * p);
    }
    DivModUnique(31 * x + s, p, v / p + 31 * k, v % p);
  }

  // The hash is the polynomial over the signed bytes, taken modulo 2^32 once at the end.
  lemma {:induction false} HashMeaning(data: seq<byte>)
    ensures SliceHash(data) == ToInt32(Pow31(|data|) + SignedSum(data))
    decreases |data|
  {
    if data == [] {
      Int32Fixed(1);
    } else {
      hide ToInt32;
      var init, last := data[..|data| - 1], data[|data| - 1];
      HashMeaning(init);
      SignedSumSnoc(init, last);
      assert data == init + [last];
      Widths();
      WrapSum(Pow31(|init|) + SignedSum(init), Signed(1, last));
    }
  }

  class OutputStream {
    var buffer: seq<byte>
    var position: nat

    constructor (length: nat)
      ensures buffer == Zeros(length) && position == 0
    {
      buffer := Zeros(length);
      position := 0;
    }

    // The source panics beyond the largest 32-bit length.
    method EnsureAvailable(size: nat)
      requires position + size <= MAX_INT32
      modifies this`buffer
      ensures buffer == Grow(old(buffer), position + size)
    {
      if |buffer| - position < size {
        var temp := buffer + Zeros(position + size - |buffer|);
        buffer := temp;
      }
    }

    method SetPosition(pos: nat)
      modifies this`position
      ensures position == pos
    {
      position := pos;
    }

    // Every fixed width write and WriteBytes: make room, copy, advance.
    method WriteBytes(data: seq<byte>)
      requires position + |data| <= MAX_INT32
      modifies this
      ensures buffer == Overwrite(old(buffer), old(position), data)
      ensures position == old(position) + |data|
    {
      EnsureAvailable(|data|);
      buffer := buffer[..position] + data + buffer[position + |data|..];
      position := position + |data|;
    }

    method WriteInt8(v: int)
      requires position + 1 <= MAX_INT32
      modifies this
      ensures buffer == Overwrite(old(buffer), old(position), LE(1, v))
      ensures position == old(position) + 1
    {
      WriteBytes(LE(1, v));
    }

    method WriteInt16(v: int)
      requires position + 2 <= MAX_INT32
      modifies this
      ensures buffer == Overwrite(old(buffer), old(position), LE(2, v))
      ensures position == old(position) + 2
    {
      WriteBytes(LE(2, v));
    }

    method WriteInt32(v: int)
      requires position + 4 <= MAX_INT32
      modifies this
      ensures buffer == Overwrite(old(buffer), old(position), LE(4, v))
      ensures position == old(position) + 4
    {
      WriteBytes(LE(4, v));
    }

    method WriteInt64(v: int)
      requires position + 8 <= MAX_INT32
      modifies this
      ensures buffer == Overwrite(old(buffer), old(position), LE(8, v))
      ensures position == old(position) + 8
    {
      WriteBytes(LE(8, v));
    }

    method HashCode(start: nat, end: nat) returns (hash: int32)
      requires start <= end <= |buffer|
      ensures hash == SliceHash(buffer[start..end])
      ensures hash == ToInt32(Pow31(end - start) + SignedSum(buffer[start..end]))
    {
      hide Signed;
      HashMeaning(buffer[start..end]);
      hash := 1;
      for i := start to end
        invariant hash == SliceHash(buffer[start..i])
      {
        assert buffer[start..i + 1][..i - start] == buffer[start..i];
        hash := ToInt32(31 * hash + Signed(1, buffer[i]));
      }
    }
  }

  class InputStream {
    const buffer: seq<byte>
    var position: nat

    constructor (buffer: seq<byte>, offset: nat)
      ensures this.buffer == buffer && position == offset
    {
      this.buffer := buffer;
      position := offset;
    }

    function Available(): int
      reads this`position
    {
      |buffer| - position
    }

    method SetPosition(pos: nat)
      requires pos <= |buffer|
      modifies this`position
      ensures position == pos
    {
      position := pos;
    }

    method ReadUInt(n: nat) returns (v: nat)
      requires Available() >= n
      modifies this`position
      ensures v == UIntAt(buffer, old(position), n) && position == old(position) + n
    {
      v := FromLE(buffer[position..position + n]);
      position := position + n;
    }

    method ReadInt8() returns (v: int8)
      requires Available() >= 1
      modifies this`position
      ensures v == Int8At(buffer, old(position)) && position == old(position) + 1
    {
      v := Int8At(buffer, position);
      position := position + 1;
    }

    method ReadInt32() returns (v: int32)
      requires Available() >= 4
      modifies this`position
      ensures v == Int32At(buffer, old(position)) && position == old(position) + 4
    {
      v := Int32At(buffer, position);
      position := position + 4;
    }

    method ReadInt64() returns (v: int64)
      requires Available() >= 8
      modifies this`position
      ensures v == Int64At(buffer, old(position)) && position == old(position) + 8
    {
      v := Int64At(buffer, position);
      position := position + 8;
    }

    method ReadBytes(size: nat) returns (r: seq<byte>)
      requires Available() >= 0
      modifies this`position
      ensures r == BytesAt(buffer, old(position), size)
      ensures position == if old(position) + size <= |buffer| then old(position) + size else |buffer|
    {
      r := BytesAt(buffer, position, size);
      position := if position + size <= |buffer| then position + size else |buffer|;
    }
  }
}
