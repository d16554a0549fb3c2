// The packet accumulator and the draining loop of the reader, and the building of a request
// (channel.go).
module PacketAccumulators {
  import opened Wrappers
  import opened Bytes
  import opened Streams
  import opened Marshaller
  import opened Packets

  class PacketAccumulator {
    var buf: seq<byte>
    var currentSize: int32

    ghost predicate Valid()
      reads this
    {
      currentSize >= 0
    }

    // The bytes received but not returned yet, with the size that has been taken off them.
    ghost function Pending(): seq<byte>
      reads this
    {
      (if currentSize > 0 then LE(4, currentSize) else []) + buf
    }

    constructor ()
      ensures Valid() && Pending() == []
    {
      buf, currentSize := [], 0;
    }

    method Append(data: seq<byte>)
      requires Valid()
      modifies this
      ensures Valid() && Pending() == old(Pending()) + data
    {
      hide LE;
      buf := buf + data;
    }

    // Whether a whole packet is there.  The source panics when the size is less than 1, with the
    // size gone from the buffer.
    method ProcessData() returns (r: Result<bool>)
      requires Valid()
      modifies this
      ensures r.Ok? ==> Valid() && Pending() == old(Pending())
      ensures r.Ok? && r.value ==> 0 < currentSize <= |buf|
      ensures r == Ok(false) ==> Parse(Pending()) == Parsed([], Pending(), false)
      ensures r.Err? ==> r == Err(Panic) && Parse(old(Pending())) == Parsed([], old(Pending()), true)
    {
      hide LE, Parse;
      if currentSize <= 0 {
        if |buf| < 4 {
          TooShort(buf);
          return Ok(false);
        }
        var size := Int32At(buf, 0);
        SizeInFront(buf);
        buf := buf[4..];
        if size < 1 {
          return Err(Panic);
        }
        currentSize := size;
      }
      if |buf| < currentSize {
        Incomplete(currentSize, buf);
      }
      return Ok(|buf| >= currentSize);
    }

    method Data() returns (r: Result<Option<Packet>>)
      requires Valid()
      modifies this
      ensures r.Ok? ==> Valid()
      ensures r == Ok(None) ==> Pending() == old(Pending()) && Parse(Pending()) == Parsed([], Pending(), false)
      ensures r.Ok? && r.value.Some? ==>
        IsPacket(r.value.value) && old(Pending()) == Frame(r.value.value) + Pending()
      ensures r.Err? ==> r == Err(Panic) && Parse(old(Pending())) == Parsed([], old(Pending()), true)
    {
      hide LE, Parse;
      var ready := ProcessData();
      match ready
      case Err(e) => return Err(e);
      case Ok(whole) =>
        if !whole {
          return Ok(None);
        }
        var size := currentSize;
        var result := buf[..size];
        var remainData := buf[size..];
        assert Pending() == Frame(result) + remainData by {
          assert buf == result + remainData;
        }
        buf := remainData;
        currentSize := 0;
        return Ok(Some(result));
    }

    // The inner loop of readLoop: the packets that are complete by now, until none is left or
    // the stream is broken.
    method Drain() returns (packets: seq<Packet>, broken: bool)
      requires Valid()
      modifies this
      ensures var parsed := Parse(old(Pending()));
        packets == parsed.packets && broken == parsed.broken
      ensures !broken ==> Valid() && Pending() == Parse(old(Pending())).rest
    {
      hide Parse, Frame;
      packets, broken := [], false;
      ghost var all := Pending();
      while true
        invariant Valid()
        invariant Parse(all) == Parse(Pending()).(packets := packets + Parse(Pending()).packets)
        decreases |Pending()|
      {
        ghost var before := Pending();
        var data := Data();
        if data.Err? {
          broken := true;
          return;
        }
        if data.value.None? {
          return;
        }
        var packet := data.value.value;
        FrameParsed(packet, Pending());
        FrameLength(packet);
        assert packets + ([packet] + Parse(Pending()).packets) == packets + [packet] + Parse(Pending()).packets;
        packets := packets + [packet];
      }
    }
  }

  lemma FrameLength(p: Packet)
    ensures |Frame(p)| == 4 + |p|
  {
  }

  lemma TooShort(s: seq<byte>)
    requires |s| < 4
    ensures Parse([] + s) == Parsed([], [] + s, false)
  {
  }

  lemma SizeInFront(s: seq<byte>)
    requires |s| >= 4
    ensures Int32At(s, 0) >= 1 ==> s == LE(4, Int32At(s, 0)) + s[4..]
    ensures Int32At(s, 0) < 1 ==> Parse([] + s) == Parsed([], [] + s, true)
  {
    LEOfFromLE(s[0..4]);
    Widths();
    assert [] + s == s;
    assert s == s[0..4] + s[4..];
  }

  lemma Incomplete(size: int32, s: seq<byte>)
    requires size > 0 && |s| < size
    ensures Parse(LE(4, size) + s) == Parsed([], LE(4, size) + s, false)
  {
    assert At(LE(4, size) + s, 0, LE(4, size));
    Int32AtWritten(LE(4, size) + s, 0, size);
  }

  function Concat(chunks: seq<seq<byte>>): seq<byte> {
    if chunks == [] then [] else Concat(chunks[..|chunks| - 1]) + chunks[|chunks| - 1]
  }

  // readLoop without the sockets: whatever the chunks are, the packets are those of the whole
  // stream, and what is kept is what a packet may still begin with.
  method ReadChunks(chunks: seq<seq<byte>>) returns (acc: PacketAccumulator, packets: seq<Packet>, broken: bool)
    ensures var parsed := Parse(Concat(chunks));
      packets == parsed.packets && broken == parsed.broken
    ensures fresh(acc)
    ensures !broken ==> acc.Valid() && acc.Pending() == Parse(Concat(chunks)).rest
  {
    hide Parse;
    acc := new PacketAccumulator();
    packets, broken := [], false;
    NothingReceived();
    for i := 0 to |chunks|
      invariant acc.Valid() && Parse(Concat(chunks[..i])) == Parsed(packets, acc.Pending(), false)
    {
      assert chunks[..i + 1][..i] == chunks[..i];
      ParseMore(Concat(chunks[..i]), chunks[i]);
      acc.Append(chunks[i]);
      var more;
      more, broken := acc.Drain();
      packets := packets + more;
      if broken {
        BrokenStays(chunks, i + 1);
        return;
      }
    }
    assert chunks[..|chunks|] == chunks;
  }

  lemma NothingReceived()
    ensures Parse(Concat([])) == Parsed([], [], false)
  {
  }

  // At every moment the packets returned so far are the first ones of the whole stream.
  lemma {:induction false} EarlierIsPrefix(chunks: seq<seq<byte>>, k: nat)
    requires k <= |chunks|
    ensures Parse(Concat(chunks[..k])).packets <= Parse(Concat(chunks)).packets
    ensures Parse(Concat(chunks[..k])).broken ==>
      Parse(Concat(chunks)).broken && Parse(Concat(chunks)).packets == Parse(Concat(chunks[..k])).packets
    decreases |chunks| - k
  {
    hide Parse;
    if k == |chunks| {
      assert chunks[..k] == chunks;
    } else {
      assert chunks[..k + 1][..k] == chunks[..k];
      ParseMore(Concat(chunks[..k]), chunks[k]);
      EarlierIsPrefix(chunks, k + 1);
    }
  }

  lemma BrokenStays(chunks: seq<seq<byte>>, k: nat)
    requires k <= |chunks| && Parse(Concat(chunks[..k])).broken
    ensures Parse(Concat(chunks)).broken && Parse(Concat(chunks)).packets == Parse(Concat(chunks[..k])).packets
  {
    EarlierIsPrefix(chunks, k);
  }

  // Framed packets come back exactly, wherever the stream was cut.
  lemma ReassemblyExact(packets: seq<Packet>, chunks: seq<seq<byte>>)
    requires forall i :: 0 <= i < |packets| ==> IsPacket(packets[i])
    requires Concat(chunks) == Frames(packets)
    ensures Parse(Concat(chunks)) == Parsed(packets, [], false)
  {
    hide Parse, Frames;
    FramesParsed(packets, []);
    assert Frames(packets) + [] == Frames(packets);
    NothingReceived();
    assert packets + [] == packets;
  }

  // ---------------------------------------------------------------- requests

  const HANDSHAKE_ID := -1

  // What newRequest frames: the handshake has neither operation code nor id.
  function RequestBody(id: int64, opCode: int, payload: seq<byte>): seq<byte> {
    if id == HANDSHAKE_ID then payload else LE(2, opCode) + (LE(8, id) + payload)
  }

  lemma SizePatched(buf: seq<byte>, zero: seq<byte>, body: seq<byte>, size: seq<byte>)
    requires |size| == |zero|
    ensures var patched := Overwrite(Overwrite(buf, 0, zero + body), 0, size);
      |size| + |body| <= |patched| && patched[..|size| + |body|] == size + body
  {
    var once := Overwrite(buf, 0, zero + body);
    assert once[0..|zero| + |body|] == zero + body;
    assert once[|zero|..|zero| + |body|] == body;
    var patched := Overwrite(once, 0, size);
    assert patched == size + once[|size|..];
  }

  method WriteRequestBody(out: OutputStream, id: int64, opCode: int, payload: seq<byte>)
    requires out.position + 10 + |payload| <= MAX_INT32
    modifies out
    ensures Wrote(out, old(out.buffer), old(out.position), RequestBody(id, opCode, payload))
  {
    hide LE, Overwrite, Grow;
    OverwriteThrice(out.buffer, out.position, LE(2, opCode), LE(8, id), payload);
    if id != HANDSHAKE_ID {
      out.WriteInt16(opCode);
      out.WriteInt64(id);
    }
    out.WriteBytes(payload);
  }

  // What a request holds: its length, then operation code, id and payload, or the payload at once.
  lemma RequestRead(id: int64, opCode: int, payload: seq<byte>)
    requires 14 + |payload| <= MAX_INT32
    ensures var data := Frame(RequestBody(id, opCode, payload));
      && |data| >= 4 && UIntAt(data, 0, 4) == |data| - 4
      && (id == -1 ==> data[4..] == payload)
      && (id != -1 ==>
            && |data| == 14 + |payload| && data[14..] == payload
            && UIntAt(data, 4, 2) == opCode % 0x1_0000 && Int64At(data, 6) == id)
  {
    hide LE, FromLE;
    var body := RequestBody(id, opCode, payload);
    var data := Frame(body);
    Widths();
    assert data[0..4] == LE(4, |body|);
    UnsignedRoundTrip(4, |body|);
    if id != -1 {
      assert data[4..6] == LE(2, opCode) && data[6..14] == LE(8, id);
      FromLEOfLE(2, opCode);
      Int64AtWritten(data, 6, id);
    }
  }

  // The caller's writer is taken as the bytes that it writes.
  method NewRequest(id: int64, opCode: int, payload: seq<byte>) returns (requestData: seq<byte>)
    requires 14 + |payload| <= MAX_INT32
    ensures requestData == Frame(RequestBody(id, opCode, payload))
    ensures |requestData| >= 4 && UIntAt(requestData, 0, 4) == |requestData| - 4
    ensures id == -1 ==> requestData[4..] == payload
    ensures id != -1 ==>
      && |requestData| == 14 + |payload| && requestData[14..] == payload
      && UIntAt(requestData, 4, 2) == opCode % 0x1_0000 && Int64At(requestData, 6) == id
  {
    hide LE, Overwrite, Grow, Zeros, RequestBody, UIntAt, Int64At;
    RequestRead(id, opCode, payload);
    var out := new OutputStream(64);
    ghost var buf, body, zero := out.buffer, RequestBody(id, opCode, payload), LE(4, 0);
    OverwriteTwice(buf, 0, zero, body);
    out.WriteInt32(0);
    WriteRequestBody(out, id, opCode, payload);
    var currPosition := out.position;
    SizePatched(buf, zero, body, LE(4, currPosition - 4));
    out.SetPosition(0);
    out.WriteInt32(currPosition - 4);
    out.SetPosition(currPosition);
    requestData := out.buffer[..out.position];
  }
}
