/** Messages on a connection: a 32-bit length, then the encoded message. */
module Streams {
  import opened Bytes
  import opened Messages
  import opened Codec
  import opened CodecProofs
  import opened Framing
  import MessageBuffers

  /** A message the encoder can be given. */
  type Outgoing = m: Message | Encodable(m) witness ERROR_REPLY

  predicate Sendable(m: Outgoing) {
    WellFormed(m) && |Encode(m)| < 0x8000_0000
  }

  function Frame(m: Outgoing): seq<Byte> {
    Be32(|Encode(m)|) + Encode(m)
  }

  function Frames(ms: seq<Outgoing>): seq<Byte> {
    if ms == [] then [] else Frame(ms[0]) + Frames(ms[1..])
  }

  /** What comes of waiting for a message. BadLength is the failed `malloc` of a negative length. */
  datatype Received = Delivered(parse: Parse<Message>) | Disconnected | BadLength | Hung

  /** A stream that starts with a complete frame. */
  ghost predicate FrameArrives(b: seq<Byte>) {
    |b| >= 4 && 0 <= S32(b) <= |b| - 4
  }

  lemma FrameDecodes(m: Outgoing, rest: seq<Byte>)
    requires Sendable(m)
    ensures var b := Frame(m) + rest;
      && FrameArrives(b) && S32(b) == |Encode(m)|
      && Decode(b[4..4 + S32(b)]) == Got(m, [])
      && b[4 + S32(b)..] == rest
  {
    var b := Frame(m) + rest;
    assert b == Be32(|Encode(m)|) + (Encode(m) + rest);
    Int32Back(|Encode(m)|, Encode(m) + rest);
    assert b[4..4 + |Encode(m)|] == Encode(m) == Encode(m) + [];
    RoundTripIff(m, []);
  }

  method SendBytes(c: Connection, buf: array<Byte>) returns (outcome: Outcome)
    modifies c
    ensures c.inbound == old(c.inbound)
    ensures Benign(old(c.events)) ==>
      outcome == Full && Benign(c.events) && c.outbound == old(c.outbound) + buf[..]
  {
    if Benign(c.events) {
      WriteRunFull(buf.Length, c.events, c.eintr);
    }
    outcome := c.WriteAll(buf, buf.Length);
    assert buf[..buf.Length] == buf[..];
  }

  method SendMessage(c: Connection, m: Outgoing) returns (outcome: Outcome)
    modifies c
    ensures c.inbound == old(c.inbound)
    ensures Benign(old(c.events)) ==>
      outcome == Full && Benign(c.events) && c.outbound == old(c.outbound) + Frame(m)
  {
    var size, buf := MessageBuffers.MessageToBuffer(m);
    var header := new Byte[4];
    var _ := MessageBuffers.CopyAt(header, 0, Be32(size));
    assert header[..] == header[..4] == Be32(size);
    outcome := SendBytes(c, header);
    if outcome == Full {
      outcome := SendBytes(c, buf);
    }
  }

  /** The header read of a stream. */
  function HeaderRun(inbound: seq<Byte>, events: seq<Event>, eintr: bool): Progress {
    ReadRun(|inbound|, 4, events, eintr)
  }

  /** The connection was closed inside the payload and the close is not reported. */
  ghost predicate PayloadHangs(inbound: seq<Byte>, events: seq<Event>, eintr: bool)
    requires |inbound| >= 4
  {
    var p := HeaderRun(inbound, events, eintr);
    p.eintr || InterruptedBeforeClose(|inbound| - 4, p.events)
  }

  /** What is decoded when only the start of a message of `n` bytes arrived: the bytes that did, and
      behind them what the new buffer happens to hold. */
  ghost predicate DecodesCut(parse: Parse<Message>, arrived: seq<Byte>, n: nat) {
    exists tail :: |arrived| + |tail| == n && parse == Decode(arrived + tail)
  }

  lemma CutDecoded(buf: seq<Byte>, arrived: seq<Byte>, n: nat)
    requires |buf| == n && |arrived| <= n && buf[..|arrived|] == arrived
    ensures DecodesCut(Decode(buf), arrived, n)
  {
    assert buf == arrived + buf[|arrived|..];
  }

  /** The payload of a message whose length is known. A close inside it is not noticed: the buffer is
      decoded as it is. */
  method ReceivePayload(c: Connection, length: nat) returns (r: Received)
    modifies c
    ensures c.outbound == old(c.outbound)
    ensures Benign(old(c.events)) ==> Benign(c.events)
    ensures Benign(old(c.events)) && length <= |old(c.inbound)| ==>
      r == Delivered(Decode(old(c.inbound)[..length])) && c.inbound == old(c.inbound)[length..]
    ensures Benign(old(c.events)) && length > |old(c.inbound)| ==>
      if old(c.eintr) || InterruptedBeforeClose(|old(c.inbound)|, old(c.events)) then r == Hung
      else r.Delivered? && DecodesCut(r.parse, old(c.inbound), length)
  {
    hide ReadRun, Decode, InterruptedBeforeClose;
    ghost var payload := c.inbound;
    if Benign(c.events) {
      ReadRunFull(|payload|, length, c.events, c.eintr);
      if |payload| < length {
        CloseReportedIff(|payload|, length, c.events, c.eintr);
      }
    }
    var buf := new Byte[length];
    var outcome := c.ReadAll(buf, length);
    if outcome == Spinning {
      return Hung;
    }
    if outcome == Failed {
      return Disconnected;
    }
    var parse := MessageBuffers.BufferToMessage(buf);
    r := Delivered(parse);
    assert buf[..] == buf[..length];
    if Benign(old(c.events)) && |payload| < length {
      CutDecoded(buf[..], payload, length);
    }
  }

  /** The receiving half of `network_receive_send`. */
  method ReceiveMessage(c: Connection) returns (r: Received)
    modifies c
    ensures c.outbound == old(c.outbound)
    ensures Benign(old(c.events)) ==> Benign(c.events)
    ensures Benign(old(c.events)) && FrameArrives(old(c.inbound)) ==>
      var n := S32(old(c.inbound));
      r == Delivered(Decode(old(c.inbound)[4..4 + n])) && c.inbound == old(c.inbound)[4 + n..]
    ensures Benign(old(c.events)) && |old(c.inbound)| < 4 ==>
      r == if old(c.eintr) || InterruptedBeforeClose(|old(c.inbound)|, old(c.events)) then Hung else Disconnected
    ensures Benign(old(c.events)) && |old(c.inbound)| >= 4 && S32(old(c.inbound)) < 0 ==> r == BadLength
    ensures Benign(old(c.events)) && |old(c.inbound)| >= 4 && S32(old(c.inbound)) > |old(c.inbound)| - 4 ==>
      if PayloadHangs(old(c.inbound), old(c.events), old(c.eintr)) then r == Hung
      else r.Delivered? && DecodesCut(r.parse, old(c.inbound)[4..], S32(old(c.inbound)))
  {
    hide ReadRun, Decode, InterruptedBeforeClose;
    ghost var inbound, events, eintr := c.inbound, c.events, c.eintr;
    if Benign(c.events) {
      ReadRunFull(|inbound|, 4, events, eintr);
      if |inbound| < 4 {
        CloseReportedIff(|inbound|, 4, events, eintr);
      }
    }
    var header := new Byte[4];
    var outcome := c.ReadAll(header, 4);
    if outcome == Spinning {
      return Hung;
    }
    if outcome != Full {
      return Disconnected;
    }
    HeaderRead(inbound, header[..], events, eintr);
    assert c.inbound == inbound[4..];
    var length := S32(header[..]);
    if length < 0 {
      return BadLength;
    }
    r := ReceivePayload(c, length);
    if length <= |inbound| - 4 {
      assert inbound[4..][..length] == inbound[4..4 + length] && inbound[4..][length..] == inbound[4 + length..];
    }
  }

  lemma HeaderRead(inbound: seq<Byte>, header: seq<Byte>, events: seq<Event>, eintr: bool)
    requires |header| == 4
    requires var p := ReadRun(|inbound|, 4, events, eintr); p.outcome == Full && header[..p.moved] == inbound[..p.moved]
    ensures |inbound| >= 4 && S32(header) == S32(inbound)
    ensures ReadRun(|inbound|, 4, events, eintr).moved == 4
  {
    FullMovesAll(|inbound|, 4, events, eintr);
    assert header == header[..4] == inbound[..4];
    assert header[2..] == inbound[2..4];
  }

  lemma {:induction false} FullMovesAll(avail: nat, len: nat, events: seq<Event>, eintr: bool)
    requires ReadRun(avail, len, events, eintr).outcome == Full
    ensures ReadRun(avail, len, events, eintr).moved == len
    decreases len, |events|
  {
    if len > 0 {
      var c := ReadCall(avail, len, events, eintr);
      FullMovesAll(avail - c.Got(), len - c.Got(), c.events, c.eintr);
    }
  }

  lemma FramesFrom(ms: seq<Outgoing>, i: int)
    requires 0 <= i < |ms|
    ensures Frames(ms[i..]) == Frame(ms[i]) + Frames(ms[i + 1..])
  {
    assert ms[i..][1..] == ms[i + 1..];
  }

  method SendAll(c: Connection, ms: seq<Outgoing>)
    requires Benign(c.events)
    modifies c
    ensures c.outbound == old(c.outbound) + Frames(ms)
  {
    for i := 0 to |ms|
      invariant Benign(c.events)
      invariant c.outbound + Frames(ms[i..]) == old(c.outbound) + Frames(ms)
    {
      FramesFrom(ms, i);
      Assoc(c.outbound, Frame(ms[i]), Frames(ms[i + 1..]));
      var _ := SendMessage(c, ms[i]);
    }
  }

  method ReceiveAll(c: Connection, ghost ms: seq<Outgoing>, n: nat) returns (got: seq<Message>)
    requires Benign(c.events) && n == |ms| && forall i :: 0 <= i < |ms| ==> Sendable(ms[i])
    requires c.inbound == Frames(ms)
    modifies c
    ensures got == ms && c.inbound == []
  {
    got := [];
    for i := 0 to n
      invariant Benign(c.events) && got == ms[..i]
      invariant c.inbound == Frames(ms[i..])
    {
      FramesFrom(ms, i);
      FrameDecodes(ms[i], Frames(ms[i + 1..]));
      var r := ReceiveMessage(c);
      got := got + [r.parse.value];
    }
  }

  /** Any messages sent over a connection arrive as they were sent, whatever partial transfers and
      interruptions either side sees. */
  method Relay(ms: seq<Outgoing>, sending: seq<Event>, receiving: seq<Event>) returns (got: seq<Message>)
    requires Benign(sending) && Benign(receiving)
    requires forall i :: 0 <= i < |ms| ==> Sendable(ms[i])
    ensures got == ms
  {
    var sender := new Connection([], sending);
    SendAll(sender, ms);
    assert sender.outbound == Frames(ms);
    var receiver := new Connection(sender.outbound, receiving);
    got := ReceiveAll(receiver, ms, |ms|);
  }
}
