/** The client's exchange with retries and server switches, `source/network_client.c`. */
module NetworkClients {
  import opened Bytes
  import opened Messages
  import opened Codec
  import opened Framing

  const MAX_ATTEMPTS := 4

  /** How the four transfers of one exchange ended, the reply's size as the client sees it, and what the
      decoder made of its buffer. */
  datatype Attempt = Attempt(sizeSent: Outcome, sent: Outcome, sizeRead: Outcome, size: int, read: Outcome,
                             parse: Parse<Message>)

  /** Stuck is a read that never returns, or a decoder that leaves its buffer. */
  datatype Verdict = Replied | Broken | Stuck

  /** A transfer whose result is not -1. */
  predicate Passes(o: Outcome) {
    o.Full? || o.Closed?
  }

  /** What the loop makes of an exchange: only results of -1, a negative size and a NULL message count as
      failures. */
  function Judge(a: Attempt): Verdict {
    if a.sizeSent.Failed? || (Passes(a.sizeSent) && a.sent.Failed?) then Broken
    else if a.sizeSent.Spinning? || a.sent.Spinning? || a.sizeRead.Spinning? then Stuck
    else if a.sizeRead.Failed? || a.size < 0 then Broken
    else if a.read.Spinning? then Stuck
    else if a.read.Failed? || a.parse.Rejected? then Broken
    else if a.parse.Overrun? then Stuck
    else Replied
  }

  /** Answered, the error message after too many failures, the NULL of a failed switch, or no return. */
  datatype Result = Answered | GaveUp | NoServer | Lost

  /** What a call comes to, and how many exchanges and how many successful switches it took. */
  datatype Ending = Ending(result: Result, exchanges: nat, switches: nat)

  /** The call from its attempt number `k` on, where `connect(j)` says whether the switch after attempt `j`
      reached the other server. */
  function CallFrom(k: nat, attempt: nat -> Attempt, connect: nat -> bool): Ending
    decreases MAX_ATTEMPTS - k
  {
    match Judge(attempt(k))
    case Replied => Ending(Answered, k + 1, k)
    case Stuck => Ending(Lost, k + 1, k)
    case Broken =>
      if !connect(k) then Ending(NoServer, k + 1, k)
      else if k + 1 >= MAX_ATTEMPTS then Ending(GaveUp, k + 1, k + 1)
      else CallFrom(k + 1, attempt, connect)
  }

  /** The two addresses after `n` switches. */
  function Swapped<T>(pair: (T, T), n: nat): (T, T) {
    if n % 2 == 0 then pair else (pair.1, pair.0)
  }

  // ----- what an exchange and a call come to -----

  /** The four transfers, in order. */
  function Transfers(a: Attempt): (t: seq<Outcome>)
    ensures |t| == 4
  {
    [a.sizeSent, a.sent, a.sizeRead, a.read]
  }

  /** The exchange comes to transfer `i`, or at 4 to the decoder: no transfer before gave -1 or hung, and the
      reply's buffer, which the last one fills, has a size that is not negative. */
  predicate Reaches(a: Attempt, i: nat)
    requires i <= 4
  {
    (forall j :: 0 <= j < i ==> Transfers(a)[j].Full? || Transfers(a)[j].Closed?) && (i >= 3 ==> a.size >= 0)
  }

  /** A transfer the exchange comes to gives -1, the size of the reply is negative, or the reply is refused. */
  predicate Fails(a: Attempt) {
    || (exists i :: 0 <= i < 4 && Reaches(a, i) && Transfers(a)[i].Failed?)
    || ((forall j :: 0 <= j < 3 ==> Transfers(a)[j].Full? || Transfers(a)[j].Closed?) && a.size < 0)
    || (Reaches(a, 4) && a.parse.Rejected?)
  }

  predicate Hangs(a: Attempt) {
    (exists i :: 0 <= i < 4 && Reaches(a, i) && Transfers(a)[i].Spinning?) || (Reaches(a, 4) && a.parse.Overrun?)
  }

  predicate GetsReply(a: Attempt) {
    Reaches(a, 4) && a.parse.Got?
  }

  lemma JudgeExact(a: Attempt)
    ensures Judge(a).Broken? <==> Fails(a)
    ensures Judge(a).Stuck? <==> Hangs(a)
    ensures Judge(a).Replied? <==> GetsReply(a)
  {
    var t := Transfers(a);
    assert t[0] == a.sizeSent && t[1] == a.sent && t[2] == a.sizeRead && t[3] == a.read;
    assert Reaches(a, 0);
    assert Reaches(a, 1) <==> Passes(t[0]);
    assert Reaches(a, 2) <==> Passes(t[0]) && Passes(t[1]);
    assert Reaches(a, 3) <==> Passes(t[0]) && Passes(t[1]) && Passes(t[2]) && a.size >= 0;
    assert Reaches(a, 4) <==> Passes(t[0]) && Passes(t[1]) && Passes(t[2]) && a.size >= 0 && Passes(t[3]);
  }

  /** Which exchanges end a call, and how: every exchange but the last failed and was followed by one
      successful switch, a reply ends the call, one that hangs never returns, a failed one ends it without a
      server if the switch fails, and the fourth ends it after the switch. */
  lemma {:induction false} CallExact(k: nat, attempt: nat -> Attempt, connect: nat -> bool)
    requires k < 4
    ensures var c := CallFrom(k, attempt, connect);
      && k < c.exchanges <= 4
      && (forall j :: k <= j < c.exchanges - 1 ==> Fails(attempt(j)) && connect(j))
      && var last := attempt(c.exchanges - 1);
      && (c.result == Answered <==> GetsReply(last))
      && (c.result == Lost <==> Hangs(last))
      && (c.result == NoServer <==> Fails(last) && !connect(c.exchanges - 1))
      && (c.result == GaveUp <==> Fails(last) && connect(c.exchanges - 1))
      && (c.result == GaveUp ==> c.exchanges == 4)
      && c.switches == (if c.result == GaveUp then 4 else c.exchanges - 1)
    decreases 4 - k
  {
    hide Judge, Fails, Hangs, GetsReply;
    JudgeExact(attempt(k));
    if Judge(attempt(k)).Broken? && connect(k) && k + 1 < 4 {
      CallExact(k + 1, attempt, connect);
    }
  }

  /** The size of a reply of which `avail` bytes arrive before the server closes: on a connection without
      other errors the close is never a failed exchange. It blocks the client for good if an interruption
      hid it, and else the client goes on with a size it never received; only that size, or what it then
      reads and decodes, can make it switch. */
  lemma CloseIsNoFailure(a: Attempt, avail: nat, events: seq<Event>, eintr: bool)
    requires Passes(a.sizeSent) && Passes(a.sent)
    requires Benign(events) && avail < 4 && a.sizeRead == ReadRun(avail, 4, events, eintr).outcome
    ensures Hangs(a) && a.sizeRead.Spinning? <==> eintr || InterruptedBeforeClose(avail, events)
    ensures Fails(a) <==>
      && !eintr && !InterruptedBeforeClose(avail, events)
      && (a.size < 0 || a.read.Failed? || (!a.read.Spinning? && a.parse.Rejected?))
  {
    hide Fails, Hangs, GetsReply, ReadRun;
    ReadRunFull(avail, 4, events, eintr);
    CloseReportedIff(avail, 4, events, eintr);
    JudgeExact(a);
  }

  class Client {
    var primary: CString     // `ip_port_primario`
    var secondary: CString   // `ip_port_secundario`

    constructor (primary: CString, secondary: CString)
      ensures this.primary == primary && this.secondary == secondary
    {
      this.primary, this.secondary := primary, secondary;
    }

    ghost function Addresses(): (CString, CString)
      reads this
    {
      (primary, secondary)
    }

    /** `switch_server`: once connected to the other server, the addresses trade places. */
    method SwitchServer(reached: bool) returns (r: int)
      modifies this
      ensures reached ==> r == 0 && primary == old(secondary) && secondary == old(primary)
      ensures !reached ==> r == -1 && primary == old(primary) && secondary == old(secondary)
    {
      if !reached {
        return -1;
      }
      primary, secondary := secondary, primary;
      return 0;
    }

    method SendReceive(attempt: nat -> Attempt, connect: nat -> bool) returns (result: Result)
      modifies this
      ensures var c := CallFrom(0, attempt, connect);
        && result == c.result
        && (if c.switches % 2 == 0 then primary == old(primary) && secondary == old(secondary)
            else primary == old(secondary) && secondary == old(primary))
    {
      var success := false;
      var attempts: nat := 0;
      while true
        invariant !success && attempts < MAX_ATTEMPTS
        invariant CallFrom(0, attempt, connect) == CallFrom(attempts, attempt, connect)
        invariant Addresses() == Swapped(old(Addresses()), attempts)
        decreases MAX_ATTEMPTS - attempts
      {
        var verdict := Judge(attempt(attempts));
        if verdict.Stuck? {
          return Lost;
        }
        if verdict.Replied? {
          success := true;
        } else {
          var failed := attempts;
          attempts := attempts + 1;
          var switched := SwitchServer(connect(failed));
          if switched == -1 {
            return NoServer;
          }
        }
        if success || attempts >= MAX_ATTEMPTS {
          break;
        }
      }
      if !success {
        return GaveUp;
      }
      return Answered;
    }
  }
}
