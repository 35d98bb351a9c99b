/** A lead that dies in the middle of a frame: what the peer takes the cut message for, and exactly when that
    does harm. */
module CutFrames {
  import opened Bytes
  import opened Hashing
  import opened Messages
  import opened Codec
  import Streams
  import opened CodecProofs
  import opened Coalesced
  import opened Dispatch
  import opened StateTransfer
  import opened Replication
  import opened ReplicationProofs

  // ----- which bytes become which message -----

  /** The message with other data. */
  function WithData(m: Message, d: Data): Message
    requires m.content.Entry?
  {
    m.(content := Entry(m.content.key, d))
  }

  /** How many bytes of an entry message stand before its data. */
  function BeforeData(m: Message): int
    requires m.content.Entry?
  {
    12 + |m.content.key|
  }

  function DataHead(m: Message): seq<Byte>
    requires m.content.Entry?
  {
    Header(m) + EncodeKey(m.content.key) + Be32(|m.content.value|)
  }

  lemma DataLast(m: Message)
    requires m.content.Entry?
    ensures |DataHead(m)| == BeforeData(m) && Encode(m) == DataHead(m) + m.content.value
  {
    Assoc(EncodeKey(m.content.key), Be32(|m.content.value|), m.content.value);
    Assoc(Header(m), EncodeKey(m.content.key), Be32(|m.content.value|));
    Assoc(Header(m), EncodeKey(m.content.key) + Be32(|m.content.value|), m.content.value);
  }

  /** The data the peer sees of an entry message of which `j` bytes of data arrived. */
  function Patched(m: Message, j: nat, tail: seq<Byte>): (d: Data)
    requires m.content.Entry? && j <= |m.content.value| <= j + |tail|
    ensures |d| == |m.content.value|
    ensures d == m.content.value <==> tail[..|m.content.value| - j] == m.content.value[j..]
  {
    var v: seq<Byte> := m.content.value;
    var d: seq<Byte> := v[..j] + tail[..|v| - j];
    assert v == v[..j] + v[j..];
    assert d[j..] == tail[..|v| - j];
    d
  }

  lemma PatchedBytes(m: Message, j: nat, tail: seq<Byte>)
    requires m.content.Entry? && j <= |m.content.value| <= j + |tail|
    ensures var m' := WithData(m, Patched(m, j, tail));
      Encode(m)[..BeforeData(m) + j] + tail == Encode(m') + tail[|m.content.value| - j..]
  {
    var v: seq<Byte> := m.content.value;
    var m' := WithData(m, Patched(m, j, tail));
    DataLast(m);
    DataLast(m');
    assert DataHead(m) == DataHead(m');
    var head, left := DataHead(m), |v| - j;
    assert Encode(m)[..BeforeData(m) + j] == head + v[..j];
    Assoc(head, v[..j], tail);
    assert tail == tail[..left] + tail[left..];
    Assoc(v[..j], tail[..left], tail[left..]);
    Assoc(head, Patched(m, j, tail), tail[left..]);
  }

  /** A put or update cut inside its data arrives as a put or update of the same key with other data: what
      came of it, and then whatever the peer's memory holds. It is the message that was sent if and only if
      that memory happens to hold the rest of it. */
  lemma CutInsideData(m: Message, n: nat, tail: seq<Byte>)
    requires m.content.Entry? && Cuts(m, n)
    requires var j := n - 4 - BeforeData(m); 0 <= j && |m.content.value| <= j + |tail|
    ensures var j := n - 4 - BeforeData(m);
      && j <= |m.content.value|
      && Arriving(m, n, tail) == Got(WithData(m, Patched(m, j, tail)), tail[|m.content.value| - j..])
      && (Arriving(m, n, tail).value == m <==> tail[..|m.content.value| - j] == m.content.value[j..])
  {
    hide Decode, DataHead, Patched;
    DataLast(m);
    var j := n - 4 - BeforeData(m);
    PatchedBytes(m, j, tail);
    RoundTripIff(WithData(m, Patched(m, j, tail)), tail[|m.content.value| - j..]);
  }

  lemma WholeFrame(m: Message, tail: seq<Byte>)
    requires Encodable(m) && Streams.Sendable(m)
    ensures Arriving(m, |Streams.Frame(m)|, tail) == Got(m, tail)
  {
    assert Encode(m)[..|Encode(m)|] == Encode(m);
    RoundTripIff(m, tail);
  }

  /** A lead that dies once the whole frame is delivered has delivered the message, if the peer outlives it. */
  lemma WholeFrameDelivers(s: State, tail: seq<Byte>)
    requires InFlight(s).Some? && s.lead.alive && s.peer.alive
    requires Encodable(InFlight(s).value) && Streams.Sendable(InFlight(s).value)
    requires Survives(s.peer.tables, Got(InFlight(s).value, tail))
    ensures var whole := CrashSending(|Streams.Frame(InFlight(s).value)|, tail);
      Enabled(s, whole) && Take(s, whole) == Crash(Deliver(s))
  {
    hide Arriving, Handle, Survives;
    WholeFrame(InFlight(s).value, tail);
  }

  // ----- what they do to the maps -----

  lemma EffectHere(stores: seq<Store>, caps: seq<int>, m: Message)
    requires |stores| == |caps| && 0 <= m.tableNum && Hashable(m) && Effect(stores, caps, m) != stores
    ensures m.tableNum < |stores| && Writes(stores[m.tableNum], caps[m.tableNum], m)
    ensures var store := stores[m.tableNum];
      Effect(stores, caps, m)[m.tableNum] == EffectOn(store, caps[m.tableNum], m) != store
    ensures forall i :: 0 <= i < |stores| && i != m.tableNum ==> Effect(stores, caps, m)[i] == stores[i]
  {
    EffectChangesIff(stores, caps, m);
    assert EffectOn(stores[m.tableNum], caps[m.tableNum], m)[m.content.key] == m.content.value;
  }

  /** Two requests that change the maps in the same way are the same request. */
  lemma EffectInjective(stores: seq<Store>, caps: seq<int>, a: Message, b: Message)
    requires |stores| == |caps|
    requires 0 <= a.tableNum && Hashable(a) && 0 <= b.tableNum && Hashable(b)
    requires Effect(stores, caps, a) == Effect(stores, caps, b) != stores
    ensures a == b
  {
    hide Effect, EffectOn, Writes;
    EffectHere(stores, caps, a);
    EffectHere(stores, caps, b);
    assert a.tableNum == b.tableNum;
    WriteInjective(stores[a.tableNum], caps[a.tableNum], a, b);
  }

  lemma WriteInjective(store: Store, cap: int, a: Message, b: Message)
    requires Hashable(a) && Hashable(b) && a.tableNum == b.tableNum
    requires Writes(store, cap, a) && Writes(store, cap, b)
    requires EffectOn(store, cap, a) == EffectOn(store, cap, b)
    ensures a == b
  {
    var after := EffectOn(store, cap, a);
    assert after == store[a.content.key := a.content.value] == store[b.content.key := b.content.value];
    assert after[a.content.key] == a.content.value && after[b.content.key] == b.content.value;
    assert a.content.key == b.content.key;
  }

  /** After a frame that brings new sizes, all tables are empty. */
  lemma SizesEmpty(ts: seq<Layout>, m: Message, i: int)
    requires m.tableNum == -1 && Changes(ts, m) && 0 <= i < |Handle(ts, m)|
    ensures MapsOf(Handle(ts, m))[i] == map[]
  {
    CreateAllEmpty(m.content.texts);
  }

  lemma InFlightLast(s: State)
    requires s.phase.Applied? && InFlight(s).Some?
    ensures s.log != [] && InFlight(s).value == Last(s.log).request && Succeeded(Last(s.log).request, Last(s.log).reply)
  {
  }

  /** A put or update that succeeded is in the maps its log leads to. */
  lemma WrittenIsBound(caps: seq<int>, log: seq<Record>)
    requires log != [] && Faithful(caps, log) && Succeeded(Last(log).request, Last(log).reply)
    ensures var m := Last(log).request;
      0 <= m.tableNum < |caps| && Placeable(m.content.key) && m.content.key in Outcome(caps, log)[m.tableNum]
  {
    hide Faithful, Outcome;
    var m := Last(log).request;
    LoggedAddresses(caps, log, |log| - 1);
    assert Wrote(log[|log| - 1], m.tableNum, m.content.key);
    OutcomeIsLastWrite(caps, log, m.tableNum, m.content.key);
  }

  /** New sizes do not leave the maps of a log that ends with a successful put or update... */
  lemma SizesAreNotForward(caps: seq<int>, ts: seq<Layout>, log: seq<Record>, d: Message)
    requires log != [] && Faithful(caps, log) && Succeeded(Last(log).request, Last(log).reply)
    requires d.tableNum == -1 && Changes(ts, d)
    ensures MapsOf(Handle(ts, d)) != Outcome(caps, log)
  {
    hide Handle, AllAnswered, Outcome, Changes;
    var m := Last(log).request;
    WrittenIsBound(caps, log);
    if MapsOf(Handle(ts, d)) == Outcome(caps, log) {
      SizesEmpty(ts, d, m.tableNum);
    }
  }

  /** ...and no other request than that one does, if it changes anything. */
  lemma StrayIsNotRequest(caps: seq<int>, ts: seq<Layout>, maps: seq<Store>, m: Message, d: Message)
    requires AllValid(ts) && CapsOf(ts) == caps && d != m && d.tableNum != -1 && Changes(ts, d)
    requires 0 <= m.tableNum && Hashable(m) && maps == Effect(MapsOf(ts), caps, m)
    ensures MapsOf(Handle(ts, d)) != maps
  {
    hide Handle, Effect;
    HandleRefines(ts, d);
    ChangesIff(ts, d);
    if MapsOf(Handle(ts, d)) == maps {
      EffectInjective(MapsOf(ts), caps, d, m);
    }
  }

  /** A message other than the one in flight that changes a table leaves what the pending request does not. */
  lemma StrayIsNotForward(caps: seq<int>, ts: seq<Layout>, log: seq<Record>, d: Message)
    requires log != [] && Faithful(caps, log) && Faithful(caps, log[..|log| - 1])
    requires Succeeded(Last(log).request, Last(log).reply)
    requires AllValid(ts) && CapsOf(ts) == caps && MapsOf(ts) == Outcome(caps, log[..|log| - 1])
    requires d != Last(log).request && Changes(ts, d)
    ensures MapsOf(Handle(ts, d)) != Outcome(caps, log)
  {
    hide Handle, AllAnswered, Outcome, Effect, Answers, Changes;
    LogCut(caps, log);
    if d.tableNum == -1 {
      SizesAreNotForward(caps, ts, log, d);
    } else {
      StrayIsNotRequest(caps, ts, Outcome(caps, log), Last(log).request, d);
    }
  }

  /** Tables that hold all but the last request, and what another message makes of them. */
  lemma StrayIff(caps: seq<int>, ts: seq<Layout>, log: seq<Record>, d: Message)
    requires log != [] && Faithful(caps, log) && Faithful(caps, log[..|log| - 1])
    requires Succeeded(Last(log).request, Last(log).reply)
    requires AllValid(ts) && CapsOf(ts) == caps && MapsOf(ts) == Outcome(caps, log[..|log| - 1])
    ensures var us := Handle(ts, d);
      && (Changes(ts, d) && us == Handle(ts, Last(log).request) ==> d == Last(log).request)
      && (d == Last(log).request || !Changes(ts, d) <==>
            CapsOf(us) == caps && MapsOf(us) in {Outcome(caps, log), Outcome(caps, log[..|log| - 1])})
  {
    hide Handle, Changes, AllAnswered, Outcome;
    PassedOn(caps, ts, log);
    ChangesIff(ts, d);
    if d != Last(log).request && Changes(ts, d) {
      StrayIsNotForward(caps, ts, log, d);
    }
  }

  lemma CutOffForward(caps: seq<int>, s: State, p: Parse<Message>)
    requires SystemInv(caps, s) && s.lead.alive && s.peer.alive && s.phase.Applied? && InFlight(s).Some?
    requires Survives(s.peer.tables, p)
    ensures var d, s1 := p.value, CutOff(s, p); var ts := s1.peer.tables;
      && s1.peer.alive
      && (s1.torn <==> d != InFlight(s).value && Changes(s.peer.tables, d))
      && (!s1.torn <==> CapsOf(ts) == caps && MapsOf(ts) in {Outcome(caps, s.log), Outcome(caps, Settled(s))})
  {
    hide Handle, Changes, AllAnswered, Outcome, Survives;
    InFlightLast(s);
    assert s.missing == [] && SyncedPeer(caps, s) && !s.torn;
    StrayIff(caps, s.peer.tables, s.log, p.value);
  }

  /** The primary dies inside the frame of a forward, and the backup outlives what it decodes. What the backup
      then holds is what the log with or without the pending request leads to if and only if it decoded the
      forwarded message itself or one that changes nothing; `torn` says exactly that it did not. */
  lemma CutForwardIff(caps: seq<int>, s: State, n: nat, tail: seq<Byte>)
    requires SystemInv(caps, s) && Enabled(s, CrashSending(n, tail)) && s.phase.Applied?
    requires Survives(s.peer.tables, Arriving(InFlight(s).value, n, tail))
    ensures var d, s1 := Arriving(InFlight(s).value, n, tail).value, Take(s, CrashSending(n, tail));
      var ts := s1.peer.tables;
      && s1.peer.alive
      && (s1.torn <==> d != InFlight(s).value && Changes(s.peer.tables, d))
      && (!s1.torn <==> CapsOf(ts) == caps && MapsOf(ts) in {Outcome(caps, s.log), Outcome(caps, Settled(s))})
  {
    hide Handle, Changes, AllAnswered, Outcome, Survives, Arriving, CutOff, InFlight, Cuts, LeadOk, PeerOk, TornPeer;
    CutOffForward(caps, s, Arriving(InFlight(s).value, n, tail));
  }

  // ----- an input at which it does harm -----

  predicate IsPut(caps: seq<int>, m: Message) {
    m.opcode == OC_PUT && 0 <= m.tableNum < |caps| && m.content.Entry? && Placeable(m.content.key)
  }

  /** Two servers that have just started. */
  lemma StartShape(caps: seq<int>, s0: State)
    requires Start(caps, s0) && s0.peer.alive
    ensures s0.lead.alive && s0.lead.primary && s0.lead.peerUp && s0.phase.Idle? && s0.log == [] && s0.missing == []
    ensures !s0.torn && !s0.peer.primary && s0.lead.tables == s0.peer.tables && AllValid(s0.peer.tables)
    ensures CapsOf(s0.peer.tables) == caps && MapsOf(s0.peer.tables) == Empty(caps)
  {
    var sizes, up :|
      && SizesAccepted(sizes) && SizesMatch(sizes, caps)
      && s0 == State(Server(true, true, up, Some(sizes), CreateAll(sizes)),
                     if up then Server(true, false, false, None, CreateAll(sizes)) else DOWN, [], Idle, [], false);
    CreateAllMaps(sizes, caps);
  }

  /** A put to an empty table succeeds. */
  lemma FirstPut(caps: seq<int>, ts: seq<Layout>, m: Message)
    requires AllValid(ts) && CapsOf(ts) == caps && MapsOf(ts) == Empty(caps) && IsPut(caps, m)
    ensures Servable(ts, m) && Invoke(ts, m).1 == Reply(m, Result(0)) && Handle(ts, m) == Invoke(ts, m).0
    ensures |Handle(ts, m)| == |caps|
    ensures var l := Handle(ts, m)[m.tableNum];
      m.content.key in Contents(l) && Contents(l)[m.content.key] == m.content.value
  {
    hide Invoke;
    InvokeRefines(ts, m);
    ValidInBounds(ts[m.tableNum]);
    assert caps[m.tableNum] == Capacity(ts[m.tableNum]);
    assert Empty(caps)[m.tableNum] == map[];
    var us := Invoke(ts, m).0;
    assert MapsOf(us)[m.tableNum] == Contents(us[m.tableNum]);
  }

  /** The first put is applied and about to be forwarded. */
  lemma PutInFlight(caps: seq<int>, s0: State, m: Message)
    requires Start(caps, s0) && s0.peer.alive && IsPut(caps, m)
    ensures Enabled(s0, Request(m))
    ensures var s := Take(s0, Request(m));
      && s.lead.alive && s.peer == s0.peer && s.missing == [] && s.phase.Applied? && !s.torn
      && s.log == [Record(m, Reply(m, Result(0)), false)] && InFlight(s) == Some(m)
  {
    hide Invoke, Handle;
    StartShape(caps, s0);
    FirstPut(caps, s0.lead.tables, m);
    assert Take(s0, Request(m)).log == [Record(m, Reply(m, Result(0)), false)];
  }

  lemma CutOffStray(s: State, p: Parse<Message>)
    requires InFlight(s).Some? && Survives(s.peer.tables, p)
    requires Handle(s.peer.tables, p.value) != Handle(s.peer.tables, InFlight(s).value)
    ensures var ts := s.peer.tables;
      CutOff(s, p) == Crash(s).(peer := s.peer.(tables := Handle(ts, p.value)), torn := Changes(ts, p.value))
  {
  }

  /** The failing input, from any start with both servers up: the primary dies one byte short of the end of
      the first forward, and the memory of the backup holds another byte there. The lead is dead and no
      transfer is under way, but the promoted backup answers with data no client ever sent. */
  lemma TruncatedForward(caps: seq<int>, s0: State, m: Message, b: Byte) returns (s1: State, s2: State, s3: State)
    requires Start(caps, s0) && s0.peer.alive && IsPut(caps, m) && Streams.Sendable(m)
    requires b != m.content.value[|m.content.value| - 1]
    ensures Enabled(s0, Request(m)) && s1 == Take(s0, Request(m))
    ensures var cut := CrashSending(|Streams.Frame(m)| - 1, [b]); Enabled(s1, cut) && s2 == Take(s1, cut)
    ensures !s2.lead.alive && s2.missing == [] && Enabled(s2, Promote) && s3 == Take(s2, Promote)
    ensures s3.lead.alive && |s3.lead.tables| == |caps| && m.content.key in Contents(s3.lead.tables[m.tableNum])
    ensures var v := m.content.value;
      Contents(s3.lead.tables[m.tableNum])[m.content.key] == v[..|v| - 1] + [b] != v
    ensures s3.log == [] && !Serves(caps, s3)
  {
    hide Handle, Invoke, Arriving, CutOff, Changes, Serves, Cuts;
    PutInFlight(caps, s0, m);
    StartShape(caps, s0);
    s1 := Take(s0, Request(m));
    var d := CutLastByte(caps, s1, m, b);
    FirstPut(caps, s0.peer.tables, d);
    s2 := Take(s1, CrashSending(|Streams.Frame(m)| - 1, [b]));
    s3 := Take(s2, Promote);
    NothingLogged(caps, s3, m.tableNum, m.content.key);
  }

  /** The forward of a put cut one byte short. */
  lemma CutLastByte(caps: seq<int>, s: State, m: Message, b: Byte) returns (d: Message)
    requires InFlight(s) == Some(m) && s.phase.Applied? && s.lead.alive && s.peer.alive
    requires IsPut(caps, m) && Streams.Sendable(m) && b != m.content.value[|m.content.value| - 1]
    requires AllValid(s.peer.tables) && CapsOf(s.peer.tables) == caps && MapsOf(s.peer.tables) == Empty(caps)
    ensures IsPut(caps, d) && d.tableNum == m.tableNum && d.content.key == m.content.key
    ensures d.content.value == m.content.value[..|m.content.value| - 1] + [b] != m.content.value
    ensures var cut, ts := CrashSending(|Streams.Frame(m)| - 1, [b]), s.peer.tables;
      && Enabled(s, cut)
      && Take(s, cut) == Crash(s).(peer := s.peer.(tables := Handle(ts, d)), torn := Changes(ts, d))
  {
    hide Handle, CutOff, Changes, Crash, Arriving, Cuts;
    d := LastByteDecoded(m, b);
    LastByteWrong(caps, s, m, d);
  }

  lemma LastByteDecoded(m: Message, b: Byte) returns (d: Message)
    requires m.content.Entry? && Streams.Sendable(m) && b != m.content.value[|m.content.value| - 1]
    ensures d.opcode == m.opcode && d.tableNum == m.tableNum && d.content.Entry? && d.content.key == m.content.key
    ensures d.content.value == m.content.value[..|m.content.value| - 1] + [b] != m.content.value
    ensures Cuts(m, |Streams.Frame(m)| - 1) && Arriving(m, |Streams.Frame(m)| - 1, [b]) == Got(d, [])
  {
    hide Arriving, DataHead;
    DataLast(m);
    var v: seq<Byte> := m.content.value;
    CutInsideData(m, |Streams.Frame(m)| - 1, [b]);
    d := WithData(m, Patched(m, |v| - 1, [b]));
    assert v[|v| - 1..] == [v[|v| - 1]];
    assert [b][..1] == [b];
  }

  /** The backup stores the data it decoded. */
  lemma LastByteWrong(caps: seq<int>, s: State, m: Message, d: Message)
    requires InFlight(s) == Some(m) && s.phase.Applied? && IsPut(caps, m) && IsPut(caps, d)
    requires d.tableNum == m.tableNum && d.content.key == m.content.key && d.content.value != m.content.value
    requires AllValid(s.peer.tables) && CapsOf(s.peer.tables) == caps && MapsOf(s.peer.tables) == Empty(caps)
    ensures CutOff(s, Got(d, []))
         == Crash(s).(peer := s.peer.(tables := Handle(s.peer.tables, d)), torn := Changes(s.peer.tables, d))
  {
    hide Handle, Invoke, CutOff, Changes;
    FirstPut(caps, s.peer.tables, m);
    FirstPut(caps, s.peer.tables, d);
    assert Handle(s.peer.tables, d) != Handle(s.peer.tables, m);
    CutOffStray(s, Got(d, []));
  }

  /** A server that leads with a binding although nothing was logged. */
  lemma NothingLogged(caps: seq<int>, s: State, t: int, k: Key)
    requires s.lead.alive && s.log == [] && 0 <= t < |s.lead.tables| == |caps| && k in Contents(s.lead.tables[t])
    ensures !Serves(caps, s)
  {
    assert MapsOf(s.lead.tables)[t] == Contents(s.lead.tables[t]);
    assert Requests(RequestsOf([])) ==> Outcome(caps, [])[t] == map[];
  }
}
