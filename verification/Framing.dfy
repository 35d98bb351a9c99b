/** `write_all` and `read_all` over a connection that transfers any number of bytes at a time. */
module Framing {
  import opened Bytes

  /** What one system call on a connection that still has bytes to move does: it moves at most
      `limit + 1` bytes, is interrupted (EINTR), or fails with another error. */
  datatype Event = Chunk(limit: nat) | Interrupt | Failure

  /** How a transfer ends. Closed and Failed are the results 0 and -1. Spinning never returns: the
      call gave 0 while `errno` still held the EINTR of an earlier call. */
  datatype Outcome = Full | Closed | Failed | Spinning

  function Moved(e: Event, len: nat): (k: nat)
    requires e.Chunk? && len > 0
    ensures 0 < k <= len
  {
    if e.limit < len then e.limit + 1 else len
  }

  predicate Benign(events: seq<Event>) {
    forall i :: 0 <= i < |events| ==> !events[i].Failure?
  }

  /** After the listed events every call moves all it can. */
  datatype Progress = Progress(outcome: Outcome, moved: nat, events: seq<Event>, eintr: bool)

  /** The result of one system call, and what `errno` and the schedule are after it. */
  datatype Call = Call(res: int, events: seq<Event>, eintr: bool) {
    function Got(): nat {
      if res > 0 then res else 0
    }
  }

  /** One call that could move `most` bytes. */
  function Transfer(most: nat, events: seq<Event>, eintr: bool): (c: Call)
    requires most > 0
    ensures c.res == -1 || 0 < c.res <= most
    ensures c.res == -1 ==> |c.events| < |events|
  {
    if events == [] then Call(most, [], eintr)
    else
      match events[0]
      case Chunk(_) => Call(Moved(events[0], most), events[1..], eintr)
      case Interrupt => Call(-1, events[1..], true)
      case Failure => Call(-1, events[1..], false)
  }

  /** `read` of at most `len` bytes. Without bytes it waits for the close, which may be interrupted or fail
      as well; at the end of the stream it gives 0 and leaves `errno` alone. */
  function ReadCall(avail: nat, len: nat, events: seq<Event>, eintr: bool): (c: Call)
    requires len > 0
    ensures c.res <= len && c.res <= avail
    ensures c.res < 0 ==> |c.events| < |events|
  {
    if avail > 0 then Transfer(if len < avail then len else avail, events, eintr)
    else if events == [] || events[0].Chunk? then Call(0, events, eintr)
    else Call(-1, events[1..], events[0].Interrupt?)
  }

  /** `read_all` of `len` bytes where `avail` bytes will arrive before the peer closes. */
  function ReadRun(avail: nat, len: nat, events: seq<Event>, eintr: bool): (p: Progress)
    ensures p.moved <= len && p.moved <= avail
    decreases len, |events|
  {
    if len == 0 then Progress(Full, 0, events, eintr)
    else
      var c := ReadCall(avail, len, events, eintr);
      if c.res == 0 then Progress(if c.eintr then Spinning else Closed, 0, c.events, c.eintr)
      else if c.res < 0 then
        if c.eintr then ReadRun(avail, len, c.events, c.eintr) else Progress(Failed, 0, c.events, c.eintr)
      else
        var p := ReadRun(avail - c.res, len - c.res, c.events, c.eintr);
        p.(moved := c.res + p.moved)
  }

  /** `write_all` of `len` bytes. */
  function WriteRun(len: nat, events: seq<Event>, eintr: bool): (p: Progress)
    ensures p.moved <= len
    decreases len, |events|
  {
    if len == 0 then Progress(Full, 0, events, eintr)
    else
      var c := Transfer(len, events, eintr);
      if c.res < 0 then
        if c.eintr then WriteRun(len, c.events, c.eintr) else Progress(Failed, 0, c.events, c.eintr)
      else
        var p := WriteRun(len - c.res, c.events, c.eintr);
        p.(moved := c.res + p.moved)
  }

  lemma BenignRest(events: seq<Event>)
    requires Benign(events) && events != []
    ensures !events[0].Failure? && Benign(events[1..])
  {
  }

  lemma BenignCall(avail: nat, len: nat, events: seq<Event>, eintr: bool)
    requires len > 0 && Benign(events)
    ensures var c := ReadCall(avail, len, events, eintr);
      && Benign(c.events) && (c.res < 0 ==> c.eintr) && (c.res == 0 <==> avail == 0 && c.res >= 0)
  {
    if events != [] {
      BenignRest(events);
    }
  }

  /** However the bytes are cut and whoever interrupts, a read that can get its bytes gets them all. */
  lemma {:induction false} ReadRunFull(avail: nat, len: nat, events: seq<Event>, eintr: bool)
    requires Benign(events)
    ensures var p := ReadRun(avail, len, events, eintr);
      && Benign(p.events)
      && (p.outcome == Full <==> len <= avail)
      && p.moved == (if len <= avail then len else avail)
      && p.outcome != Failed
    decreases len, |events|
  {
    hide ReadCall, Benign;
    if len > 0 {
      BenignCall(avail, len, events, eintr);
      var c := ReadCall(avail, len, events, eintr);
      if c.res != 0 {
        ReadRunFull(avail - c.Got(), len - c.Got(), c.events, c.eintr);
      }
    }
  }

  // ----- what a failed call does -----

  /** How many bytes the chunks of a schedule can move. */
  function ChunkSum(events: seq<Event>): nat {
    if events == [] then 0 else (if events[0].Chunk? then events[0].limit + 1 else 0) + ChunkSum(events[1..])
  }

  function FirstFailure(events: seq<Event>): (i: nat)
    ensures i <= |events| && (i < |events| ==> events[i].Failure?)
    ensures forall j :: 0 <= j < i ==> !events[j].Failure?
  {
    if events == [] || events[0].Failure? then 0 else 1 + FirstFailure(events[1..])
  }

  lemma ChunkSumStep(events: seq<Event>, i: nat)
    requires 0 < i <= |events|
    ensures ChunkSum(events[..i])
         == (if events[0].Chunk? then events[0].limit + 1 else 0) + ChunkSum(events[1..][..i - 1])
  {
    assert events[..i][1..] == events[1..][..i - 1];
  }

  lemma FailureStep(events: seq<Event>)
    requires events != [] && !events[0].Failure?
    ensures var i, later := FirstFailure(events), FirstFailure(events[1..]);
      && i == later + 1
      && ChunkSum(events[..i]) == (if events[0].Chunk? then events[0].limit + 1 else 0) + ChunkSum(events[1..][..later])
      && (i < |events| ==> events[i + 1..] == events[1..][later + 1..])
  {
    ChunkSumStep(events, FirstFailure(events));
  }

  lemma WriteTakes(len: nat, events: seq<Event>, eintr: bool)
    requires len > 0 && events != [] && !events[0].Failure?
    ensures var c := Transfer(len, events, eintr);
      && c.events == events[1..] && (c.res > 0 || (c.res < 0 && c.eintr))
      && var size := if events[0].Chunk? then events[0].limit + 1 else 0; c.Got() == if size < len then size else len
  {
  }

  /** Over all schedules, a write fails if and only if a call fails before the chunks in front of it add up
      to all bytes. It stops there, with what they moved; else it moves every byte. */
  lemma {:induction false} WriteFailsIff(len: nat, events: seq<Event>, eintr: bool)
    ensures var p, i := WriteRun(len, events, eintr), FirstFailure(events);
      && (p.outcome == Failed <==> i < |events| && ChunkSum(events[..i]) < len)
      && (p.outcome == Failed ==> p == Progress(Failed, ChunkSum(events[..i]), events[i + 1..], false))
      && (p.outcome != Failed ==> p.outcome == Full && p.moved == len)
    decreases |events|
  {
    if len > 0 && events != [] && !events[0].Failure? {
      hide ChunkSum, FirstFailure, Transfer;
      WriteTakes(len, events, eintr);
      var c := Transfer(len, events, eintr);
      WriteFailsIff(len - c.Got(), events[1..], c.eintr);
      FailureStep(events);
    }
  }

  /** No chunk in front of event `i` finds all `avail` bytes taken, which would be the end of the stream. */
  predicate StillOpen(avail: nat, events: seq<Event>, i: nat)
    requires i <= |events|
  {
    forall j :: 0 <= j < i && events[j].Chunk? ==> ChunkSum(events[..j]) < avail
  }

  function Min(a: nat, b: nat): nat {
    if a < b then a else b
  }

  /** What the first event takes of `avail` bytes. */
  function Taken(avail: nat, e: Event): nat {
    if e.Chunk? then Min(e.limit + 1, avail) else 0
  }

  lemma StillOpenStep(avail: nat, events: seq<Event>, i: nat)
    requires 0 < i <= |events| && (avail > 0 || !events[0].Chunk?)
    ensures StillOpen(avail, events, i) <==> StillOpen(avail - Taken(avail, events[0]), events[1..], i - 1)
  {
    var rest, left := events[1..], avail - Taken(avail, events[0]);
    forall j | 0 < j < i
      ensures ChunkSum(events[..j]) < avail <==> ChunkSum(rest[..j - 1]) < left
    {
      ChunkSumStep(events, j);
    }
    if StillOpen(avail, events, i) {
      forall j | 0 <= j < i - 1 && rest[j].Chunk? ensures ChunkSum(rest[..j]) < left {
        assert events[j + 1].Chunk?;
      }
    }
    if StillOpen(left, rest, i - 1) {
      forall j | 0 <= j < i && events[j].Chunk? ensures ChunkSum(events[..j]) < avail {
        assert j > 0 ==> rest[j - 1].Chunk?;
      }
    }
  }

  lemma ReadTakes(avail: nat, len: nat, events: seq<Event>, eintr: bool)
    requires len > 0 && events != [] && !events[0].Failure? && (avail > 0 || events[0].Interrupt?)
    ensures var c := ReadCall(avail, len, events, eintr);
      && c.events == events[1..] && c.Got() == Min(len, Taken(avail, events[0]))
      && (c.res > 0 || (c.res < 0 && c.eintr))
  {
  }

  ghost predicate ReadEnds(p: Progress, avail: nat, len: nat, events: seq<Event>) {
    var i := FirstFailure(events);
    var sum := Min(ChunkSum(events[..i]), avail);
    && (p.outcome == Failed <==> i < |events| && sum < len && StillOpen(avail, events, i))
    && (p.outcome == Failed ==> p == Progress(Failed, sum, events[i + 1..], false))
    && (p.outcome != Failed ==> (p.outcome == Full <==> len <= avail) && p.moved == Min(len, avail))
  }

  lemma ReadStops(avail: nat, len: nat, events: seq<Event>, eintr: bool)
    requires len == 0 || events == [] || events[0].Failure? || (avail == 0 && events[0].Chunk?)
    ensures ReadEnds(ReadRun(avail, len, events, eintr), avail, len, events)
  {
    if len > 0 && events != [] && !events[0].Failure? {
      assert ChunkSum(events[..0]) == 0;
    }
  }

  lemma ReadGoesOn(p: Progress, avail: nat, len: nat, events: seq<Event>)
    requires len > 0 && events != [] && !events[0].Failure? && (avail > 0 || events[0].Interrupt?)
    requires var k := Min(len, Taken(avail, events[0])); ReadEnds(p, avail - k, len - k, events[1..])
    ensures var k := Min(len, Taken(avail, events[0])); ReadEnds(p.(moved := k + p.moved), avail, len, events)
  {
    hide StillOpen, ChunkSum, FirstFailure;
    FailureStep(events);
    StillOpenStep(avail, events, FirstFailure(events));
  }

  lemma {:induction false} ReadEndsAlways(avail: nat, len: nat, events: seq<Event>, eintr: bool)
    ensures ReadEnds(ReadRun(avail, len, events, eintr), avail, len, events)
    decreases |events|
  {
    hide ReadEnds, ReadCall, Taken;
    if len > 0 && events != [] && !events[0].Failure? && (avail > 0 || events[0].Interrupt?) {
      ReadTakes(avail, len, events, eintr);
      var c := ReadCall(avail, len, events, eintr);
      ReadEndsAlways(avail - c.Got(), len - c.Got(), events[1..], c.eintr);
      ReadGoesOn(ReadRun(avail - c.Got(), len - c.Got(), events[1..], c.eintr), avail, len, events);
    } else {
      ReadStops(avail, len, events, eintr);
    }
  }

  /** Over all schedules, a read fails if and only if a call fails before the chunks in front of it give all
      bytes, and before the close is seen. It stops there, with what they gave. */
  lemma ReadFailsIff(avail: nat, len: nat, events: seq<Event>, eintr: bool)
    ensures var p, i := ReadRun(avail, len, events, eintr), FirstFailure(events);
      var sum := Min(ChunkSum(events[..i]), avail);
      && (p.outcome == Failed <==> i < |events| && sum < len && StillOpen(avail, events, i))
      && (p.outcome == Failed ==> p == Progress(Failed, sum, events[i + 1..], false))
      && (p.outcome != Failed ==> (p.outcome == Full <==> len <= avail) && p.moved == Min(len, avail))
  {
    hide ReadRun, StillOpen, ChunkSum, FirstFailure;
    ReadEndsAlways(avail, len, events, eintr);
  }

  /** An interruption comes while the `avail` bytes are taken, or while the call behind the last of them
      waits for the close. */
  predicate InterruptedBeforeClose(avail: nat, events: seq<Event>)
    decreases |events|
  {
    && events != [] && !events[0].Failure?
    && (events[0].Interrupt?
        || (avail > 0 && InterruptedBeforeClose(avail - Moved(events[0], avail), events[1..])))
  }

  /** A read that runs out of bytes and does not fail reports the close if and only if `errno` was not EINTR
      before and no interruption comes before the close. Otherwise it never returns. */
  lemma {:induction false} CloseReportedIff(avail: nat, len: nat, events: seq<Event>, eintr: bool)
    requires avail < len && ReadRun(avail, len, events, eintr).outcome != Failed
    ensures ReadRun(avail, len, events, eintr).outcome
         == if eintr || InterruptedBeforeClose(avail, events) then Spinning else Closed
    decreases |events|, avail
  {
    if events != [] && !events[0].Failure? && (avail > 0 || events[0].Interrupt?) {
      hide ReadCall;
      ReadTakes(avail, len, events, eintr);
      var c := ReadCall(avail, len, events, eintr);
      CloseReportedIff(avail - c.Got(), len - c.Got(), events[1..], c.eintr);
    }
  }

  /** The failing input: one interruption before the first byte, or if there is none before the close, and
      the close is never reported. */
  lemma InterruptHidesClose(avail: nat, len: nat)
    requires avail < len
    ensures ReadRun(avail, len, [Interrupt], false).outcome == Spinning
    ensures ReadRun(avail, len, [], false).outcome == Closed
  {
    ReadRunFull(avail, len, [Interrupt], false);
    ReadRunFull(avail, len, [], false);
    CloseReportedIff(avail, len, [Interrupt], false);
    CloseReportedIff(avail, len, [], false);
  }

  lemma {:induction false} WriteRunFull(len: nat, events: seq<Event>, eintr: bool)
    requires Benign(events)
    ensures var p := WriteRun(len, events, eintr);
      p.outcome == Full && p.moved == len && Benign(p.events)
    decreases len, |events|
  {
    if len > 0 {
      var c := Transfer(len, events, eintr);
      WriteRunFull(len - c.Got(), c.events, c.eintr);
    }
  }

  /** Of the whole write `all`, `left` bytes remain to be written after `at`. */
  ghost predicate WriteLeft(all: Progress, at: nat, left: nat, events: seq<Event>, eintr: bool) {
    var rest := WriteRun(left, events, eintr);
    all == rest.(moved := at + rest.moved)
  }

  lemma WriteStep(all: Progress, at: nat, left: nat, events: seq<Event>, eintr: bool)
    requires left > 0 && WriteLeft(all, at, left, events, eintr)
    ensures var c := Transfer(left, events, eintr);
      && (c.res > 0 ==> WriteLeft(all, at + c.res, left - c.res, c.events, c.eintr))
      && (c.res < 0 && c.eintr ==> WriteLeft(all, at, left, c.events, c.eintr))
      && (c.res < 0 && !c.eintr ==> all == Progress(Failed, at, c.events, c.eintr))
  {
  }

  ghost predicate ReadLeft(all: Progress, at: nat, avail: nat, left: nat, events: seq<Event>, eintr: bool) {
    var rest := ReadRun(avail, left, events, eintr);
    all == rest.(moved := at + rest.moved)
  }

  lemma ReadStep(all: Progress, at: nat, avail: nat, left: nat, events: seq<Event>, eintr: bool)
    requires left > 0 && ReadLeft(all, at, avail, left, events, eintr)
    ensures var c := ReadCall(avail, left, events, eintr);
      && (c.res > 0 ==> ReadLeft(all, at + c.res, avail - c.res, left - c.res, c.events, c.eintr))
      && (c.res < 0 && c.eintr ==> ReadLeft(all, at, avail, left, c.events, c.eintr))
      && (c.res < 0 && !c.eintr ==> all == Progress(Failed, at, c.events, c.eintr))
      && (c.res == 0 ==> all == Progress(if c.eintr then Spinning else Closed, at, c.events, c.eintr))
  {
  }

  /** One end of a TCP connection, with the system's part in it. */
  class Connection {
    var inbound: seq<Byte>    // what will still arrive before the peer closes
    var outbound: seq<Byte>   // what was handed to the system to send
    var events: seq<Event>
    var eintr: bool           // errno == EINTR

    constructor (inbound: seq<Byte>, events: seq<Event>)
      ensures this.inbound == inbound && this.outbound == [] && this.events == events && !eintr
    {
      this.inbound := inbound;
      this.outbound := [];
      this.events := events;
      this.eintr := false;
    }

    /** The system call `read`. */
    method Read(buf: array<Byte>, at: int, len: nat) returns (res: int)
      requires len > 0 && 0 <= at <= at + len <= buf.Length
      modifies this, buf
      ensures outbound == old(outbound)
      ensures var c := ReadCall(|old(inbound)|, len, old(events), old(eintr));
        && res == c.res && events == c.events && eintr == c.eintr
        && inbound == old(inbound)[c.Got()..] && buf[..at + c.Got()] == old(buf[..at]) + old(inbound)[..c.Got()]
    {
      if inbound == [] {
        if events == [] || events[0].Chunk? {
          return 0;
        }
        eintr := events[0].Interrupt?;
        events := events[1..];
        return -1;
      }
      var c := Transfer(if len < |inbound| then len else |inbound|, events, eintr);
      events, eintr := c.events, c.eintr;
      var k := c.Got();
      for i := 0 to k
        modifies buf
        invariant buf[..at + i] == old(buf[..at]) + inbound[..i]
      {
        buf[at + i] := inbound[i];
        assert buf[..at + i + 1] == buf[..at + i] + [inbound[i]];
        assert inbound[..i + 1] == inbound[..i] + [inbound[i]];
      }
      inbound := inbound[k..];
      return c.res;
    }

    /** The system call `write`. */
    method Write(buf: array<Byte>, at: int, len: nat) returns (res: int)
      requires len > 0 && 0 <= at <= at + len <= buf.Length
      modifies this
      ensures inbound == old(inbound)
      ensures var c := Transfer(len, old(events), old(eintr));
        && res == c.res && events == c.events && eintr == c.eintr
        && outbound == old(outbound) + buf[at..at + c.Got()]
    {
      var c := Transfer(len, events, eintr);
      events, eintr := c.events, c.eintr;
      outbound := outbound + buf[at..at + c.Got()];
      return c.res;
    }

    ghost predicate Ends(p: Progress, outcome: Outcome)
      reads this
    {
      outcome == p.outcome && events == p.events && eintr == p.eintr
    }

    /** One turn of the loop of `write_all`. */
    method WriteSome(buf: array<Byte>, at: nat, left: nat, ghost all: Progress) returns (res: int)
      requires left > 0 && at + left <= buf.Length
      requires WriteLeft(all, at, left, events, eintr)
      modifies this
      ensures inbound == old(inbound) && res <= left
      ensures res > 0 ==>
        WriteLeft(all, at + res, left - res, events, eintr) && outbound == old(outbound) + buf[at..at + res]
      ensures res <= 0 ==> outbound == old(outbound)
      ensures res <= 0 && eintr ==> WriteLeft(all, at, left, events, eintr) && |events| < |old(events)|
      ensures res <= 0 && !eintr ==> all == Progress(Failed, at, events, eintr)
    {
      WriteStep(all, at, left, events, eintr);
      res := Write(buf, at, left);
    }

    method WriteAll(buf: array<Byte>, len: nat) returns (outcome: Outcome)
      requires len <= buf.Length
      modifies this
      ensures inbound == old(inbound)
      ensures var p := WriteRun(len, old(events), old(eintr));
        Ends(p, outcome) && outbound == old(outbound) + buf[..p.moved]
    {
      hide Transfer;
      ghost var p := WriteRun(len, events, eintr);
      var at: nat, left: nat := 0, len;
      while left > 0
        invariant at + left == len && inbound == old(inbound)
        invariant outbound == old(outbound) + buf[..at]
        invariant WriteLeft(p, at, left, events, eintr)
        decreases left, |events|
      {
        var res := WriteSome(buf, at, left, p);
        if res <= 0 {
          if eintr {
            continue;
          }
          return Failed;
        }
        assert buf[..at + res] == buf[..at] + buf[at..at + res];
        at := at + res;
        left := left - res;
      }
      return Full;
    }

    /** One turn of the loop of `read_all`. */
    method ReadSome(buf: array<Byte>, at: nat, left: nat, ghost all: Progress) returns (res: int)
      requires left > 0 && at + left <= buf.Length
      requires ReadLeft(all, at, |inbound|, left, events, eintr)
      modifies this, buf
      ensures outbound == old(outbound) && res <= left && res <= |old(inbound)|
      ensures res > 0 ==> ReadLeft(all, at + res, |inbound|, left - res, events, eintr)
      ensures var k := if res > 0 then res else 0;
        inbound == old(inbound)[k..] && buf[..at + k] == old(buf[..at]) + old(inbound)[..k]
      ensures res < 0 && eintr ==> ReadLeft(all, at, |inbound|, left, events, eintr) && |events| < |old(events)|
      ensures res < 0 && !eintr ==> all == Progress(Failed, at, events, eintr)
      ensures res == 0 ==> all == Progress(if eintr then Spinning else Closed, at, events, eintr)
    {
      ReadStep(all, at, |inbound|, left, events, eintr);
      res := Read(buf, at, left);
    }

    method ReadAll(buf: array<Byte>, len: nat) returns (outcome: Outcome)
      requires len <= buf.Length
      modifies this, buf
      ensures outbound == old(outbound)
      ensures var p := ReadRun(|old(inbound)|, len, old(events), old(eintr));
        && Ends(p, outcome)
        && inbound == old(inbound)[p.moved..]
        && buf[..p.moved] == old(inbound)[..p.moved]
    {
      hide ReadCall;
      ghost var p := ReadRun(|inbound|, len, events, eintr);
      var at: nat, left: nat := 0, len;
      while left > 0
        invariant at + left == len && at <= |old(inbound)| && outbound == old(outbound)
        invariant inbound == old(inbound)[at..] && buf[..at] == old(inbound)[..at]
        invariant ReadLeft(p, at, |inbound|, left, events, eintr)
        decreases left, |events|
      {
        var res := ReadSome(buf, at, left, p);
        if res <= 0 {
          if eintr {
            if res == 0 {
              return Spinning;
            }
            continue;
          }
          return if res == 0 then Closed else Failed;
        }
        SplitMore(old(inbound), at, res);
        at := at + res;
        left := left - res;
      }
      return Full;
    }
  }
}
