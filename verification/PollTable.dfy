/** The array of polled connections of `source/table-server.c`, kept dense as clients come and go. */
module PollTables {

  const SERVER_SOCKET := 1
  const STDIN_SOCKET := 2
  const FIRST_CLIENT := 3
  const POLLIN := 1

  datatype PollFd = PollFd(fd: int, events: int, revents: int)

  const VACANT: PollFd := PollFd(-1, 0, 0)

  /** The first place after `i` that holds no connection. */
  function RunEnd(s: seq<PollFd>, i: int): (k: int)
    requires 0 <= i < |s|
    ensures i < k <= |s|
    ensures forall j :: i < j < k ==> s[j].fd != -1
    ensures k < |s| ==> s[k].fd == -1
    decreases |s| - i
  {
    if i + 1 < |s| && s[i + 1].fd != -1 then RunEnd(s, i + 1) else i + 1
  }

  /** The array after `shift` from `i`. */
  function Shifted(s: seq<PollFd>, i: int): (r: seq<PollFd>)
    requires 0 <= i < |s|
    ensures |r| == |s|
  {
    var k := RunEnd(s, i);
    s[..i] + s[i + 1..k] + (if k == i + 1 then [s[i]] else [VACANT]) + s[k..]
  }

  /** The sequence without its element `i`. */
  function Without<T>(s: seq<T>, i: int): seq<T>
    requires 0 <= i < |s|
  {
    s[..i] + s[i + 1..]
  }

  /** The connections of clients: `n` places in use, the first three of them not for clients. */
  ghost predicate DenseUpTo(s: seq<PollFd>, n: int) {
    && FIRST_CLIENT <= n <= |s|
    && (forall i :: FIRST_CLIENT <= i < n ==> s[i].fd != -1)
    && (forall i :: n <= i < |s| ==> s[i] == VACANT)
  }

  /** Vacating a client's place and shifting takes out exactly that client. */
  lemma ShiftedClients(s: seq<PollFd>, i: int, n: int)
    requires DenseUpTo(s, n) && FIRST_CLIENT <= i < n
    ensures var r := Shifted(s[i := VACANT], i);
      && DenseUpTo(r, n - 1) && r[..FIRST_CLIENT] == s[..FIRST_CLIENT]
      && r[FIRST_CLIENT..n - 1] == Without(s[FIRST_CLIENT..n], i - FIRST_CLIENT)
  {
    var t := s[i := VACANT];
    RunEndIs(t, i, n);
    var r := Shifted(t, i);
    assert forall x :: 0 <= x < i ==> r[x] == s[x];
    assert forall x :: i <= x < n - 1 ==> r[x] == s[x + 1];
    assert forall x :: n - 1 <= x < |s| ==> r[x] == VACANT;
  }

  lemma RunEndIs(s: seq<PollFd>, i: int, k: int)
    requires 0 <= i < k <= |s| && (k < |s| ==> s[k].fd == -1)
    requires forall j :: i < j < k ==> s[j].fd != -1
    ensures RunEnd(s, i) == k
  {
  }

  // ----- the polled array over whole runs -----

  /** The array and `nSockets`. */
  datatype Polled = Polled(slots: seq<PollFd>, used: int)

  /** A new connection under any descriptor, the end of the client at some place or of the other server, or
      a hang-up that `poll` reports at any place behind the first. */
  datatype Change = Arrival(fd: int) | Departure(place: int) | ServerGone | HangUp(place: int)

  ghost predicate WellKept(p: Polled) {
    DenseUpTo(p.slots, p.used)
  }

  function Room(p: Polled): int {
    |p.slots| - FIRST_CLIENT
  }

  function ClientsOf(p: Polled): seq<PollFd>
    requires FIRST_CLIENT <= p.used <= |p.slots|
  {
    p.slots[FIRST_CLIENT..p.used]
  }

  /** What a turn of the poll loop makes of the array. */
  function Next(p: Polled, change: Change): Polled
    requires FIRST_CLIENT <= p.used <= |p.slots|
  {
    match change
    case Arrival(fd) =>
      if p.used < |p.slots|
      then Polled(p.slots[p.used := p.slots[p.used].(fd := fd, events := POLLIN)], p.used + 1)
      else p
    case Departure(i) =>
      if FIRST_CLIENT <= i < p.used then Polled(Shifted(p.slots[i := VACANT], i), p.used - 1) else p
    case ServerGone => p.(slots := p.slots[SERVER_SOCKET := VACANT])
    case HangUp(i) =>
      if i == SERVER_SOCKET then p.(slots := p.slots[SERVER_SOCKET := VACANT])
      else if SERVER_SOCKET < i < p.used then Polled(Shifted(p.slots[i := VACANT], i), p.used - 1)
      else p
  }

  function After(p: Polled, changes: seq<Change>): Polled
    decreases |changes|
  {
    if changes == [] || !(FIRST_CLIENT <= p.used <= |p.slots|) then p else After(Next(p, changes[0]), changes[1..])
  }

  /** Arrivals are those for which `accept` gave a descriptor, not -1; standard input does not hang up. */
  predicate Proper(changes: seq<Change>) {
    forall i :: 0 <= i < |changes| ==> ProperChange(changes[i])
  }

  predicate ProperChange(change: Change) {
    (change.Arrival? ==> change.fd != -1) && (change.HangUp? ==> change.place != STDIN_SOCKET)
  }

  /** A client as its arrival left it, with the number of its arrival. */
  datatype Guest = Guest(arrival: int, conn: PollFd)

  function Conns(guests: seq<Guest>): (conns: seq<PollFd>)
    ensures |conns| == |guests| && forall i :: 0 <= i < |guests| ==> conns[i] == guests[i].conn
  {
    seq(|guests|, i requires 0 <= i < |guests| => guests[i].conn)
  }

  /** The list of guests the array stands for: arrivals join at the end while there is room, a departure
      takes one out. */
  function NextGuests(guests: seq<Guest>, room: int, now: int, change: Change): seq<Guest> {
    match change
    case Arrival(fd) => if |guests| < room then guests + [Guest(now, PollFd(fd, POLLIN, 0))] else guests
    case Departure(i) => if 0 <= i - FIRST_CLIENT < |guests| then Without(guests, i - FIRST_CLIENT) else guests
    case ServerGone => guests
    case HangUp(i) => if 0 <= i - FIRST_CLIENT < |guests| then Without(guests, i - FIRST_CLIENT) else guests
  }

  function GuestsAfter(guests: seq<Guest>, room: int, now: int, changes: seq<Change>): seq<Guest>
    decreases |changes|
  {
    if changes == [] then guests
    else GuestsAfter(NextGuests(guests, room, now, changes[0]), room, now + 1, changes[1..])
  }

  /** The guests stand in the order in which they arrived, all of them before `now`. */
  ghost predicate InOrder(guests: seq<Guest>, now: int) {
    && (forall i :: 0 <= i < |guests| ==> guests[i].arrival < now)
    && forall i, j :: 0 <= i < j < |guests| ==> guests[i].arrival < guests[j].arrival
  }

  lemma ArrivalDense(p: Polled, guests: seq<Guest>, now: int, fd: int)
    requires WellKept(p) && ClientsOf(p) == Conns(guests) && fd != -1
    ensures var q := Next(p, Arrival(fd));
      && WellKept(q) && Room(q) == Room(p) && q.slots[..FIRST_CLIENT] == p.slots[..FIRST_CLIENT]
      && ClientsOf(q) == Conns(NextGuests(guests, Room(p), now, Arrival(fd)))
  {
    if p.used < |p.slots| {
      var q, conn := Next(p, Arrival(fd)), PollFd(fd, POLLIN, 0);
      assert q.slots == p.slots[p.used := conn];
      assert ClientsOf(q) == ClientsOf(p) + [conn];
      assert Conns(guests + [Guest(now, conn)]) == Conns(guests) + [conn];
    }
  }

  lemma DepartureDense(p: Polled, guests: seq<Guest>, now: int, i: int)
    requires WellKept(p) && ClientsOf(p) == Conns(guests)
    ensures var q := Next(p, Departure(i));
      && WellKept(q) && Room(q) == Room(p) && q.slots[..FIRST_CLIENT] == p.slots[..FIRST_CLIENT]
      && ClientsOf(q) == Conns(NextGuests(guests, Room(p), now, Departure(i)))
  {
    hide Shifted;
    if FIRST_CLIENT <= i < p.used {
      ShiftedClients(p.slots, i, p.used);
      assert Conns(Without(guests, i - FIRST_CLIENT)) == Without(Conns(guests), i - FIRST_CLIENT);
    }
  }

  lemma NextDense(p: Polled, guests: seq<Guest>, now: int, change: Change)
    requires WellKept(p) && ClientsOf(p) == Conns(guests) && ProperChange(change)
    ensures var q := Next(p, change);
      && WellKept(q) && Room(q) == Room(p) && ClientsOf(q) == Conns(NextGuests(guests, Room(p), now, change))
  {
    hide Shifted, Conns;
    match change
    case Arrival(fd) => ArrivalDense(p, guests, now, fd);
    case Departure(i) => DepartureDense(p, guests, now, i);
    case ServerGone => assert ClientsOf(Next(p, change)) == ClientsOf(p);
    case HangUp(i) =>
      if i == SERVER_SOCKET {
        assert ClientsOf(Next(p, change)) == ClientsOf(p);
      } else {
        DepartureDense(p, guests, now, i);
      }
  }

  /** When standard input hangs up, the first client is moved to its place and is no client any more. */
  lemma StdinHangsUp(p: Polled)
    requires WellKept(p)
    ensures var q := Next(p, HangUp(STDIN_SOCKET));
      && q.used == p.used - 1
      && (p.used > FIRST_CLIENT ==>
            WellKept(q) && q.slots[STDIN_SOCKET] == ClientsOf(p)[0] && ClientsOf(q) == ClientsOf(p)[1..])
  {
    var s := p.slots[STDIN_SOCKET := VACANT];
    RunEndIs(s, STDIN_SOCKET, p.used);
    if p.used > FIRST_CLIENT {
      var r := Shifted(s, STDIN_SOCKET);
      assert forall x :: STDIN_SOCKET <= x < p.used - 1 ==> r[x] == p.slots[x + 1];
      assert forall x :: p.used - 1 <= x < |r| ==> r[x] == VACANT;
    }
  }

  /** A hang-up at a polled place leaves the array dense, and all clients but the one that hung up in their
      order, if and only if it is not standard input that hung up. */
  lemma HangUpKeepsIff(p: Polled, i: int)
    requires WellKept(p) && SERVER_SOCKET <= i < p.used
    ensures var q := Next(p, HangUp(i));
      var others := if i < FIRST_CLIENT then ClientsOf(p) else Without(ClientsOf(p), i - FIRST_CLIENT);
      WellKept(q) && ClientsOf(q) == others <==> i != STDIN_SOCKET
  {
    if i == SERVER_SOCKET {
      assert ClientsOf(Next(p, HangUp(i))) == ClientsOf(p);
    } else if i == STDIN_SOCKET {
      StdinHangsUp(p);
    } else {
      ShiftedClients(p.slots, i, p.used);
    }
  }

  lemma NextInOrder(guests: seq<Guest>, room: int, now: int, change: Change)
    requires InOrder(guests, now)
    ensures InOrder(NextGuests(guests, room, now, change), now + 1)
  {
  }

  /** Whoever comes and goes and whatever descriptors `accept` hands out again, the polled array stays
      dense, and its clients are those that came and have not gone, each unchanged and in order of arrival. */
  lemma {:induction false} ArrivalOrderKept(p: Polled, guests: seq<Guest>, now: int, changes: seq<Change>)
    requires WellKept(p) && ClientsOf(p) == Conns(guests) && InOrder(guests, now) && Proper(changes)
    ensures var q, stay := After(p, changes), GuestsAfter(guests, Room(p), now, changes);
      && WellKept(q) && |q.slots| == |p.slots|
      && ClientsOf(q) == Conns(stay)
      && InOrder(stay, now + |changes|)
    decreases |changes|
  {
    if changes != [] {
      NextDense(p, guests, now, changes[0]);
      NextInOrder(guests, Room(p), now, changes[0]);
      ArrivalOrderKept(Next(p, changes[0]), NextGuests(guests, Room(p), now, changes[0]), now + 1, changes[1..]);
    }
  }

  class PollTable {
    const slots: array<PollFd>
    var nSockets: int

    ghost function State(): Polled
      reads this, slots
    {
      Polled(slots[..], nSockets)
    }

    /** The clients sit in the slots from 3 to `nSockets`, and nothing sits behind them. */
    ghost predicate Dense()
      reads this, slots
    {
      WellKept(State())
    }

    ghost function Clients(): seq<PollFd>
      requires Dense()
      reads this, slots
    {
      ClientsOf(State())
    }

    /** The listening socket, the other server's and standard input take the first three places. */
    constructor (size: int, listening: PollFd, server: PollFd, stdin: PollFd)
      requires size >= FIRST_CLIENT
      ensures Dense() && fresh(slots) && slots.Length == size && Clients() == []
      ensures slots[..FIRST_CLIENT] == [listening, server, stdin]
    {
      slots := new PollFd[size](_ => VACANT);
      nSockets := FIRST_CLIENT;
      new;
      slots[0], slots[1], slots[2] := listening, server, stdin;
    }

    /** `shift`: the connections right after `i` each move down one place. */
    method Shift(i: int)
      requires 0 <= i < slots.Length
      modifies slots
      ensures slots[..] == Shifted(old(slots[..]), i)
    {
      ghost var s := slots[..];
      ghost var k := RunEnd(s, i);
      var j := i;
      while j + 1 < slots.Length && slots[j + 1].fd != -1
        invariant i <= j < k && RunEnd(s, j) == k
        invariant forall x :: 0 <= x < i ==> slots[x] == s[x]
        invariant forall x :: i <= x < j ==> slots[x] == s[x + 1]
        invariant slots[j] == (if j == i then s[i] else VACANT)
        invariant forall x :: j < x < slots.Length ==> slots[x] == s[x]
      {
        var moved := slots[j + 1];
        slots[j + 1] := VACANT;
        slots[j] := moved;
        j := j + 1;
      }
      assert j + 1 == k;
    }

    /** A new connection is polled if there is room for it. */
    method Accept(fd: int) returns (accepted: bool)
      requires Dense() && fd != -1
      modifies this, slots
      ensures Dense() && slots[..FIRST_CLIENT] == old(slots[..FIRST_CLIENT])
      ensures accepted <==> old(nSockets) < slots.Length
      ensures State() == Next(old(State()), Arrival(fd))
      ensures Clients() == old(Clients()) + (if accepted then [PollFd(fd, POLLIN, 0)] else [])
    {
      accepted := nSockets < slots.Length;
      if accepted {
        slots[nSockets] := slots[nSockets].(fd := fd, events := POLLIN);
        nSockets := nSockets + 1;
      }
    }

    /** A client is gone: exactly its place is taken out, and the others keep their order. */
    method Disconnect(i: int)
      requires Dense() && FIRST_CLIENT <= i < nSockets
      modifies this, slots
      ensures Dense() && slots[..FIRST_CLIENT] == old(slots[..FIRST_CLIENT])
      ensures Clients() == Without(old(Clients()), i - FIRST_CLIENT)
      ensures State() == Next(old(State()), Departure(i))
    {
      ShiftedClients(slots[..], i, nSockets);
      ghost var s := slots[..];
      slots[i] := VACANT;
      assert slots[..] == s[i := VACANT];
      Shift(i);
      nSockets := nSockets - 1;
      assert slots[..FIRST_CLIENT] == slots[..][..FIRST_CLIENT];
    }

    /** The other server's connection is gone: its place stays, and no client moves. */
    method DisconnectServer()
      requires Dense()
      modifies slots
      ensures Dense() && Clients() == old(Clients()) && slots[SERVER_SOCKET] == VACANT
      ensures State() == Next(old(State()), ServerGone)
    {
      slots[SERVER_SOCKET] := VACANT;
    }

    /** `poll` reports a hang-up. */
    method HangUp(i: int)
      requires Dense() && SERVER_SOCKET <= i < nSockets
      modifies this, slots
      ensures State() == Next(old(State()), Change.HangUp(i))
      ensures i != STDIN_SOCKET ==> Dense()
    {
      ghost var s := slots[..];
      HangUpKeepsIff(State(), i);
      slots[i] := VACANT;
      assert slots[..] == s[i := VACANT];
      if i != SERVER_SOCKET {
        Shift(i);
        nSockets := nSockets - 1;
      }
    }

    /** The poll loop over any changes: the table ends up as the run on the array has it. */
    method Poll(changes: seq<Change>)
      requires Dense() && Proper(changes)
      modifies this, slots
      ensures Dense() && State() == After(old(State()), changes)
    {
      var i := 0;
      while i < |changes|
        invariant 0 <= i <= |changes| && Dense()
        invariant After(State(), changes[i..]) == After(old(State()), changes)
        decreases |changes| - i
      {
        assert changes[i..][1..] == changes[i + 1..];
        match changes[i] {
          case Arrival(fd) =>
            var _ := Accept(fd);
          case Departure(place) =>
            if FIRST_CLIENT <= place < nSockets {
              Disconnect(place);
            }
          case ServerGone =>
            DisconnectServer();
          case HangUp(place) =>
            if SERVER_SOCKET <= place < nSockets {
              HangUp(place);
            }
        }
        i := i + 1;
      }
    }
  }
}
