/** The primary and its backup as a state machine: requests, forwarding, answers, crashes, promotion
    and recovery. */
module Replication {
  import opened Bytes
  import opened Messages
  import opened Codec
  import Streams
  import opened Coalesced
  import opened Dispatch
  import opened StateTransfer
  import opened TableSizes

  /** One server process. `primary` is `primario`, `peerUp` is `o_server->state`, and `sizes` is the
      table list it was started with, if it was. */
  datatype Server = Server(alive: bool, primary: bool, peerUp: bool, sizes: Option<seq<CString>>, tables: seq<Layout>)

  const DOWN: Server := Server(false, false, false, None, [])

  /** Where the lead is inside `network_receive_send`. It serves one request at a time. */
  datatype Phase = Idle | Applied | Forwarded | Transferring

  /** A request in the order of application, and whether its reply was sent. */
  datatype Record = Record(request: Message, reply: Message, answered: bool)

  /** `lead` is the server clients use and `peer` the other one; `missing` are the messages of a state
      transfer that the peer has not handled; `log` are the requests whose effects the lead holds; the
      peer is `torn` if it took a message cut short for another one. */
  datatype State = State(lead: Server, peer: Server, missing: seq<Message>, phase: Phase, log: seq<Record>, torn: bool)

  datatype Step =
    | Request(m: Message)  // received, decoded and applied
    | Forward              // sent on to the backup, if it is to be
    | Answer               // the reply goes out
    | Drop                 // the client is gone before the reply
    | CrashLead
    | CrashSending(n: nat, tail: seq<Byte>)  // the lead dies once `n` bytes of a frame for the peer are
                                             // delivered; `tail` is what the peer's memory holds behind them
    | CrashPeer
    | Notice               // the lead reads the end of the backup's connection
    | Promote              // a client connects to the other server
    | Hello                // a crashed backup restarts and is accepted
    | Send                 // one message of the state transfer arrives

  function Last(log: seq<Record>): Record
    requires log != []
  {
    log[|log| - 1]
  }

  /** A put or update that succeeded. */
  predicate Succeeded(m: Message, reply: Message) {
    reply.opcode != OC_RT_ERROR && (m.opcode == OC_PUT || m.opcode == OC_UPDATE) && m.content.Entry?
  }

  /** The primary passes on a success while it takes its backup to be up. */
  predicate Forwards(lead: Server, r: Record) {
    lead.primary && lead.peerUp && Succeeded(r.request, r.reply)
  }

  /** The message the lead sends to the peer next. */
  function InFlight(s: State): Option<Message> {
    if s.phase.Applied? && s.log != [] && Forwards(s.lead, Last(s.log)) then Some(Last(s.log).request)
    else if s.phase.Transferring? && s.missing != [] then Some(s.missing[0])
    else None
  }

  /** The frame of the message can be cut behind `n` bytes so that its length has arrived. With less of it
      the peer reads the end of the stream, and the crash is a CrashLead. */
  predicate Cuts(m: Message, n: nat) {
    Encodable(m) && Streams.Sendable(m) && 4 <= n <= |Streams.Frame(m)|
  }

  predicate Enabled(s: State, step: Step) {
    match step
    case Request(m) => s.lead.alive && s.phase.Idle? && Servable(s.lead.tables, m)
    case Forward => s.lead.alive && s.phase.Applied? && s.log != []
    case Answer => s.lead.alive && s.phase.Forwarded? && s.log != [] && Encodable(Last(s.log).reply)
    case Drop => s.lead.alive && s.phase.Forwarded? && s.log != [] && Encodable(Last(s.log).reply)
    case CrashLead => s.lead.alive && (s.phase.Applied? ==> s.log != [])
    case CrashSending(n, _) => s.lead.alive && s.peer.alive && InFlight(s).Some? && Cuts(InFlight(s).value, n)
    case CrashPeer => s.peer.alive
    case Notice => s.lead.alive && s.phase.Idle? && !s.peer.alive
    case Promote => s.peer.alive && !s.phase.Transferring? && !s.peer.primary
    case Hello => s.lead.alive && s.phase.Idle? && !s.peer.alive && s.lead.sizes.Some? && |s.lead.tables| <= 0x7FFF
    case Send => s.lead.alive && s.peer.alive && s.phase.Transferring? && s.missing != []
  }

  /** What the peer decodes when the frame of `m` ends behind `n` bytes. */
  function Arriving(m: Message, n: nat, tail: seq<Byte>): Parse<Message>
    requires Cuts(m, n)
  {
    Decode(Encode(m)[..n - 4] + tail)
  }

  /** The peer outlives what it decoded. It dies printing a NULL message or a reply without content; a
      negative table number, a bad list of sizes or opcode and a key that may index before the array leave
      defined behaviour, and count as dead. */
  predicate Survives(ts: seq<Layout>, p: Parse<Message>): (b: bool)
    ensures b ==> p.Got?
  {
    && p.Got?
    && var m := p.value;
       if m.tableNum == -1 then
         || (m.opcode == OC_SZ_TABLES && m.content.KeyTexts? && SizesAccepted(m.content.texts))
         || m.opcode == OC_ACK
         || (m.opcode == OC_IP_PORT && m.content.KeyText?)
       else m.tableNum >= |ts| || (Servable(ts, m) && Encodable(Invoke(ts, m).1))
  }

  /** A put or update that takes effect and does not repeat what is there. */
  predicate Writes(store: Store, cap: int, m: Message)
    requires Hashable(m)
  {
    Stores(store, cap, m) && !(m.content.key in store && store[m.content.key] == m.content.value)
  }

  /** Handling the message changes what some table holds, or the capacities. */
  predicate Changes(ts: seq<Layout>, m: Message) {
    if m.tableNum == -1 then
      && m.opcode == OC_SZ_TABLES && m.content.KeyTexts? && SizesAccepted(m.content.texts)
      && (CapsOf(CreateAll(m.content.texts)) != CapsOf(ts) || exists i :: 0 <= i < |ts| && Contents(ts[i]) != map[])
    else
      && Servable(ts, m) && m.tableNum < |ts|
      && Writes(Contents(ts[m.tableNum]), Capacity(ts[m.tableNum]), m)
  }

  /** The requests whose effects are not in the lead's memory alone. */
  function Settled(s: State): seq<Record>
  {
    if s.phase.Applied? && s.log != [] then s.log[..|s.log| - 1] else s.log
  }

  /** The message in flight reaches the peer and is handled. */
  function Deliver(s: State): State
    requires InFlight(s).Some?
  {
    var peer := s.peer.(tables := Handle(s.peer.tables, InFlight(s).value));
    if s.phase.Applied? then s.(peer := peer, phase := Forwarded)
    else s.(peer := peer, missing := s.missing[1..], phase := if |s.missing| == 1 then Idle else Transferring)
  }

  /** The lead is gone, with a request of which nothing reached the peer. */
  function Crash(s: State): State {
    s.(lead := DOWN, phase := Idle, log := Settled(s))
  }

  /** The lead is gone, and the peer takes for a message what arrived of the one in flight. */
  function CutOff(s: State, p: Parse<Message>): State
    requires InFlight(s).Some?
  {
    if !Survives(s.peer.tables, p) then Crash(s).(peer := DOWN, missing := [])
    else
      var ts := Handle(s.peer.tables, p.value);
      if ts == Handle(s.peer.tables, InFlight(s).value) then Crash(Deliver(s))
      else Crash(s).(peer := s.peer.(tables := ts), torn := Changes(s.peer.tables, p.value))
  }

  function Take(s: State, step: Step): State
    requires Enabled(s, step)
  {
    match step
    case Request(m) =>
      var (ts, reply) := Invoke(s.lead.tables, m);
      s.(lead := s.lead.(tables := ts), phase := Applied, log := s.log + [Record(m, reply, false)])
    case Forward =>
      if InFlight(s).Some? && s.peer.alive then Deliver(s) else s.(phase := Forwarded)
    case Answer =>
      s.(phase := Idle, log := s.log[|s.log| - 1 := Last(s.log).(answered := true)])
    case Drop =>
      s.(phase := Idle)
    case CrashLead =>
      Crash(s)
    case CrashSending(n, tail) =>
      CutOff(s, Arriving(InFlight(s).value, n, tail))
    case CrashPeer =>
      s.(peer := DOWN, missing := [], torn := false, phase := if s.phase.Transferring? then Idle else s.phase)
    case Notice =>
      s.(lead := s.lead.(peerUp := false))
    case Promote =>
      State(s.peer.(primary := true, peerUp := false), s.lead, [], Idle, s.log, false)
    case Hello =>
      State(s.lead.(peerUp := true), Server(true, false, true, None, []),
            Transfer(s.lead.sizes.value, s.lead.tables), Transferring, s.log, false)
    case Send =>
      Deliver(s)
  }

  /** Startup: the primary has created its tables, and a backup that could be reached has been sent the
      sizes and the ACK. */
  ghost predicate Start(caps: seq<int>, s: State) {
    exists sizes: seq<CString>, up: bool ::
      && SizesAccepted(sizes) && SizesMatch(sizes, caps)
      && s == State(Server(true, true, up, Some(sizes), CreateAll(sizes)),
                    if up then Server(true, false, false, None, CreateAll(sizes)) else DOWN, [], Idle, [], false)
  }

  ghost predicate SizesMatch(sizes: seq<CString>, caps: seq<int>) {
    && |sizes| == |caps| <= 0x7FFF
    && forall i :: 0 <= i < |caps| ==> Atoi(sizes[i]) == caps[i]
  }

  // ----- what the log means -----

  function RequestsOf(log: seq<Record>): (ms: seq<Message>) {
    seq(|log|, i requires 0 <= i < |log| => log[i].request)
  }

  function RepliesOf(log: seq<Record>): seq<Message> {
    seq(|log|, i requires 0 <= i < |log| => log[i].reply)
  }

  /** The records whose replies the clients have. */
  function AnsweredOf(log: seq<Record>): seq<Record> {
    if log == [] then []
    else AnsweredOf(log[..|log| - 1]) + (if Last(log).answered then [Last(log)] else [])
  }

  function Empty(caps: seq<int>): (stores: seq<Store>)
    ensures |stores| == |caps|
  {
    seq(|caps|, _ => map[])
  }

  /** The maps after the requests of the log. */
  ghost function Outcome(caps: seq<int>, log: seq<Record>): (stores: seq<Store>)
    requires Requests(RequestsOf(log))
    ensures |stores| == |caps|
  {
    Replay(Empty(caps), caps, RequestsOf(log))
  }

  /** The log is a run of the service of maps: every reply is the one that service gives at that point. */
  ghost predicate Faithful(caps: seq<int>, log: seq<Record>) {
    && Requests(RequestsOf(log))
    && AllAnswered(Empty(caps), caps, RequestsOf(log), RepliesOf(log))
  }

  /** No two live servers act as primary, and the lead has its tables and holds exactly the effects of the log. */
  ghost predicate Serves(caps: seq<int>, s: State) {
    && Faithful(caps, s.log)
    && !(s.lead.alive && s.lead.primary && s.peer.alive && s.peer.primary)
    && (s.lead.alive ==> CapsOf(s.lead.tables) == caps && MapsOf(s.lead.tables) == Outcome(caps, s.log))
  }
}
