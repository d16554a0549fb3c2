// Length-prefixed packets and their reassembly from arbitrary chunks (channel.go).
module Packets {
  import opened Bytes
  import opened Streams

  type Packet = seq<byte>

  function Frame(p: Packet): seq<byte> {
    LE(4, |p|) + p
  }

  function Frames(ps: seq<Packet>): seq<byte> {
    if ps == [] then [] else Frame(ps[0]) + Frames(ps[1..])
  }

  predicate IsPacket(p: Packet) {
    1 <= |p| <= MAX_INT32
  }

  // ------------------------------------------------ what a stream consists of

  // The packets of a stream, the bytes behind them, and whether those begin with a size that is
  // too small.
  datatype Parsed = Parsed(packets: seq<Packet>, rest: seq<byte>, broken: bool)

  function Parse(s: seq<byte>): Parsed
    decreases |s|
  {
    if |s| < 4 then Parsed([], s, false)
    else
      var size := Int32At(s, 0);
      if size < 1 then Parsed([], s, true)
      else if |s| - 4 < size then Parsed([], s, false)
      else
        var tail := Parse(s[4 + size..]);
        tail.(packets := [s[4..4 + size]] + tail.packets)
  }

  lemma FrameAtFront(s: seq<byte>, size: nat)
    requires 4 + size <= |s| && Int32At(s, 0) == size
    ensures s == Frame(s[4..4 + size]) + s[4 + size..]
  {
    hide LE;
    LEOfFromLE(s[0..4]);
    Widths();
    assert s == s[0..4] + (s[4..4 + size] + s[4 + size..]);
  }

  // Parsing loses no byte and finds only packets that a frame can carry.
  lemma {:induction false} ParseConserves(s: seq<byte>)
    ensures s == Frames(Parse(s).packets) + Parse(s).rest
    ensures forall i :: 0 <= i < |Parse(s).packets| ==> IsPacket(Parse(s).packets[i])
    decreases |s|
  {
    hide Frame, Frames, LE, Int32At;
    FramesEnds(s);
    if |s| >= 4 {
      var size := Int32At(s, 0);
      if 1 <= size <= |s| - 4 {
        var first, after := s[4..4 + size], s[4 + size..];
        FrameAtFront(s, size);
        ParseConserves(after);
        FramesCons(first, Parse(after).packets, Parse(after).rest);
      }
    }
  }

  lemma FramesCons(p: Packet, ps: seq<Packet>, rest: seq<byte>)
    ensures Frames([p] + ps) + rest == Frame(p) + (Frames(ps) + rest)
  {
    hide Frame;
    assert ([p] + ps)[1..] == ps;
  }

  lemma FramesEnds(rest: seq<byte>)
    ensures Frames([]) + rest == rest
  {
  }

  lemma FrameParsed(p: Packet, tail: seq<byte>)
    requires IsPacket(p)
    ensures Parse(Frame(p) + tail) == Parse(tail).(packets := [p] + Parse(tail).packets)
  {
    hide LE;
    var s := Frame(p) + tail;
    assert At(s, 0, LE(4, |p|));
    Int32AtWritten(s, 0, |p|);
    assert s[4..4 + |p|] == p && s[4 + |p|..] == tail;
  }

  lemma {:induction false} FramesParsed(ps: seq<Packet>, tail: seq<byte>)
    requires forall i :: 0 <= i < |ps| ==> IsPacket(ps[i])
    ensures Parse(Frames(ps) + tail) == Parse(tail).(packets := ps + Parse(tail).packets)
  {
    hide Frame, Parse;
    if ps == [] {
      assert Frames(ps) + tail == tail;
    } else {
      FramesParsed(ps[1..], tail);
      FrameParsed(ps[0], Frames(ps[1..]) + tail);
      assert Frames(ps) + tail == Frame(ps[0]) + (Frames(ps[1..]) + tail);
      assert ps == [ps[0]] + ps[1..];
    }
  }

  // Nothing is left to parse in the rest.
  lemma {:induction false} RestParsed(s: seq<byte>)
    ensures Parse(Parse(s).rest) == Parsed([], Parse(s).rest, Parse(s).broken)
    ensures Parse(s).broken ==> |Parse(s).rest| >= 4 && Int32At(Parse(s).rest, 0) < 1
    decreases |s|
  {
    hide Int32At;
    if |s| >= 4 {
      var size := Int32At(s, 0);
      if 1 <= size <= |s| - 4 {
        RestParsed(s[4 + size..]);
      }
    }
  }

  // More bytes only add packets; a broken stream stays broken where it was.
  lemma ParseMore(s: seq<byte>, more: seq<byte>)
    ensures var p, q := Parse(s), Parse(Parse(s).rest + more);
      Parse(s + more) == q.(packets := p.packets + q.packets)
    ensures Parse(s).broken ==> Parse(Parse(s).rest + more) == Parsed([], Parse(s).rest + more, true)
  {
    hide Frames, Parse, Int32At;
    var p := Parse(s);
    ParseConserves(s);
    assert s + more == Frames(p.packets) + (p.rest + more);
    FramesParsed(p.packets, p.rest + more);
    RestParsed(s);
    if p.broken {
      BrokenParsed(p.rest, more);
    }
  }

  lemma BrokenParsed(s: seq<byte>, more: seq<byte>)
    requires |s| >= 4 && Int32At(s, 0) < 1
    ensures Parse(s + more) == Parsed([], s + more, true)
  {
    assert (s + more)[0..4] == s[0..4];
  }
}
