/** `network_receive_send` from bytes to bytes: a framed request comes in, is decoded, applied and passed
    on, and its reply goes out framed. */
module NetworkServers {
  import opened Bytes
  import opened Messages
  import opened Codec
  import opened Framing
  import opened Streams
  import opened Dispatch
  import Coalesced
  import StateTransfer
  import WireSafety
  import Replication
  import opened Servers

  /** The results 0, -1 and -2; Lost is a call that never returns or leaves defined behaviour: a read
      that spins, a message the decoder runs past or refuses (the refusal is printed through NULL), a key that
      may index before the array, a server message, or a reply without content. */
  datatype Status = Done | ClientGone | Failed | Lost

  /** The message a complete frame at the start of the stream decodes to. */
  function Arrived(b: seq<Byte>): Parse<Message>
    requires |b| >= 4 && 0 <= S32(b) <= |b| - 4
  {
    Decode(b[4..4 + S32(b)])
  }

  /** A client request the tables can serve and whose reply has its content. */
  ghost predicate Answerable(server: seq<Coalesced.Layout>, p: Parse<Message>) {
    && p.Got? && 0 <= p.value.tableNum && Hashable(p.value)
    && Servable(server, p.value) && Encodable(Invoke(server, p.value).1)
  }

  /** The backup's tables once a server that forwards, or does not, has served the request. */
  function PassedOn(forwards: bool, backup: seq<Coalesced.Layout>, m: Message, reply: Message): seq<Coalesced.Layout> {
    if forwards && Replication.Succeeded(m, reply) then StateTransfer.Handle(backup, m) else backup
  }

  /** The stream ends inside the size of a request or inside the request, and the read does not see it. */
  ghost predicate CloseHidden(inbound: seq<Byte>, events: seq<Event>, eintr: bool) {
    if |inbound| < 4 then eintr || InterruptedBeforeClose(|inbound|, events)
    else S32(inbound) > |inbound| - 4 && PayloadHangs(inbound, events, eintr)
  }

  /** On a connection that does not fail, however it is cut up, a whole request is answered with the frame
      of the reply the tables give, and a backup taken to be up has had a success before that. The client is
      gone if and only if the size is missing and the close is seen, and the call fails if and only if the
      size is negative. */
  method ReceiveSend(c: Connection, server: Server, backup: Server?) returns (status: Status)
    requires server.Valid() && (backup != null ==> backup != server && backup.Valid())
    modifies c, server`tables, if backup == null then {} else {backup}
    ensures server.Valid() && (backup != null ==> backup.Valid())
    ensures status.ClientGone? ==> server.tables == old(server.tables)
    ensures
      && Benign(old(c.events)) && FrameArrives(old(c.inbound))
      && Answerable(old(server.tables), Arrived(old(c.inbound))) ==>
      var m := Arrived(old(c.inbound)).value;
      var (tables, reply) := Invoke(old(server.tables), m);
      && status == Done
      && c.inbound == old(c.inbound)[4 + S32(old(c.inbound))..]
      && server.tables == tables && c.outbound == old(c.outbound) + Frame(reply)
      && (backup != null ==>
            backup.tables == PassedOn(server.primary && server.peerUp, old(backup.tables), m, reply))
    ensures status.ClientGone? && backup != null ==> backup.tables == old(backup.tables)
    ensures Benign(old(c.events)) ==>
      && (status.ClientGone? <==>
            |old(c.inbound)| < 4 && !CloseHidden(old(c.inbound), old(c.events), old(c.eintr)))
      && (status.Failed? <==> |old(c.inbound)| >= 4 && S32(old(c.inbound)) < 0)
      && (CloseHidden(old(c.inbound), old(c.events), old(c.eintr)) ==> status.Lost?)
      && (FrameArrives(old(c.inbound)) && !Answerable(old(server.tables), Arrived(old(c.inbound))) ==> status.Lost?)
  {
    var r := ReceiveMessage(c);
    match r
    case Disconnected => return ClientGone;
    case BadLength => return Status.Failed;
    case Hung => return Lost;
    case Delivered(parse) =>
      if !parse.Got? || parse.value.tableNum < 0 || !Hashable(parse.value) {
        return Lost;
      }
      status := AnswerRequest(c, server, backup, parse.value);
  }

  /** Apply, pass on, answer. The backup has the request whether or not the reply then gets through. */
  method AnswerRequest(c: Connection, server: Server, backup: Server?, m: Message) returns (status: Status)
    requires server.Valid() && (backup != null ==> backup != server && backup.Valid())
    requires 0 <= m.tableNum && Hashable(m)
    modifies c, server`tables, if backup == null then {} else {backup}
    ensures server.Valid() && (backup != null ==> backup.Valid())
    ensures Servable(old(server.tables), m) && server.tables == Invoke(old(server.tables), m).0
    ensures status != ClientGone && c.inbound == old(c.inbound)
    ensures !Encodable(Invoke(old(server.tables), m).1) ==> status == Lost
    ensures var reply := Invoke(old(server.tables), m).1;
      && (Benign(old(c.events)) && Encodable(reply) ==> status == Done && c.outbound == old(c.outbound) + Frame(reply))
      && (backup != null ==> backup.tables == PassedOn(server.primary && server.peerUp, old(backup.tables), m, reply))
  {
    var reply := server.Serve(m, backup);
    if !Encodable(reply) {
      return Lost;
    }
    var outcome := SendMessage(c, reply);
    status := if outcome == Full then Done else Status.Failed;
  }

  /** A framed request is answerable unless it is a get of an absent key. */
  lemma FramedIsAnswerable(ts: seq<Coalesced.Layout>, m: Outgoing, rest: seq<Byte>)
    requires AllValid(ts) && Sendable(m) && 0 <= m.tableNum && Hashable(m)
    ensures FrameArrives(Frame(m) + rest) && Arrived(Frame(m) + rest) == Got(m, [])
    ensures Answerable(ts, Arrived(Frame(m) + rest)) <==>
      !(m.tableNum < |ts| && m.opcode == OC_GET && m.content.KeyText? && m.content.text != ALL_KEYS
        && m.content.text !in Coalesced.Contents(ts[m.tableNum]))
  {
    FrameDecodes(m, rest);
    ValidServable(ts, m);
    WireSafety.ReplyLacksContentIff(ts, m);
  }
}
