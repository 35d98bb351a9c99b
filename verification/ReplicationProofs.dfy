/** Failover safety over whole runs of the replication protocol. */
module ReplicationProofs {
  import opened Bytes
  import opened Hashing
  import opened Messages
  import opened Codec
  import Streams
  import opened Coalesced
  import opened CoalescedInvariant
  import CoalescedMap
  import opened Dispatch
  import opened StateTransfer
  import opened TableSizes
  import opened Replication

  // ----- logs grow and shrink at the end -----

  lemma {:induction false} ReplaySnoc(stores: seq<Store>, caps: seq<int>, ms: seq<Message>, m: Message)
    requires |stores| == |caps| && Requests(ms) && 0 <= m.tableNum && Hashable(m)
    ensures Requests(ms + [m]) && Replay(stores, caps, ms + [m]) == Effect(Replay(stores, caps, ms), caps, m)
    decreases |ms|
  {
    assert (ms + [m])[|ms|] == m;
    if ms == [] {
      assert ms + [m] == [m] && [m][1..] == [];
      assert Replay(Effect(stores, caps, m), caps, []) == Effect(stores, caps, m);
    } else {
      assert (ms + [m])[1..] == ms[1..] + [m];
      ReplaySnoc(Effect(stores, caps, ms[0]), caps, ms[1..], m);
    }
  }

  lemma {:induction false} AnsweredSnoc(stores: seq<Store>, caps: seq<int>, ms: seq<Message>, rs: seq<Message>,
                                        m: Message, r: Message)
    requires |stores| == |caps| && Requests(ms) && Requests(ms + [m]) && |ms| == |rs|
    requires 0 <= m.tableNum && Hashable(m)
    ensures AllAnswered(stores, caps, ms + [m], rs + [r])
       <==> AllAnswered(stores, caps, ms, rs) && Answers(Replay(stores, caps, ms), caps, m, r)
    decreases |ms|
  {
    if ms == [] {
      assert ms + [m] == [m] && rs + [r] == [r] && [m][1..] == [] && [r][1..] == [];
      assert AllAnswered(Effect(stores, caps, m), caps, [], []);
    } else {
      assert (ms + [m])[1..] == ms[1..] + [m] && (rs + [r])[1..] == rs[1..] + [r];
      AnsweredSnoc(Effect(stores, caps, ms[0]), caps, ms[1..], rs[1..], m, r);
    }
  }

  /** Appending a record is one step of the service of maps. */
  lemma LogSnoc(caps: seq<int>, log: seq<Record>, r: Record)
    requires Requests(RequestsOf(log)) && 0 <= r.request.tableNum && Hashable(r.request)
    ensures Requests(RequestsOf(log + [r]))
    ensures Outcome(caps, log + [r]) == Effect(Outcome(caps, log), caps, r.request)
    ensures Faithful(caps, log + [r]) <==> Faithful(caps, log) && Answers(Outcome(caps, log), caps, r.request, r.reply)
  {
    assert RequestsOf(log + [r]) == RequestsOf(log) + [r.request];
    assert RepliesOf(log + [r]) == RepliesOf(log) + [r.reply];
    ReplaySnoc(Empty(caps), caps, RequestsOf(log), r.request);
    AnsweredSnoc(Empty(caps), caps, RequestsOf(log), RepliesOf(log), r.request, r.reply);
  }

  lemma LogCut(caps: seq<int>, log: seq<Record>)
    requires log != [] && Faithful(caps, log)
    ensures var cut := log[..|log| - 1];
      && Faithful(caps, cut)
      && 0 <= Last(log).request.tableNum && Hashable(Last(log).request)
      && Outcome(caps, log) == Effect(Outcome(caps, cut), caps, Last(log).request)
      && Answers(Outcome(caps, cut), caps, Last(log).request, Last(log).reply)
  {
    var cut := log[..|log| - 1];
    assert log == cut + [Last(log)];
    assert RequestsOf(log)[|log| - 1] == Last(log).request;
    assert forall i :: 0 <= i < |cut| ==> RequestsOf(cut)[i] == RequestsOf(log)[i];
    LogSnoc(caps, cut, Last(log));
  }

  /** Whether a reply was sent does not matter to the maps. */
  lemma LogMark(caps: seq<int>, log: seq<Record>)
    requires log != []
    ensures var marked := log[|log| - 1 := Last(log).(answered := true)];
      RequestsOf(marked) == RequestsOf(log) && RepliesOf(marked) == RepliesOf(log)
  {
  }

  // ----- the invariant -----

  ghost predicate LeadOk(caps: seq<int>, s: State)
    requires Faithful(caps, s.log)
  {
    s.lead.alive ==>
      && s.lead.primary && AllValid(s.lead.tables) && CapsOf(s.lead.tables) == caps
      && MapsOf(s.lead.tables) == Outcome(caps, s.log)
      && (s.lead.sizes.Some? ==> SizesMatch(s.lead.sizes.value, caps))
  }

  /** A synced backup has the effects of all settled requests. */
  ghost predicate SyncedPeer(caps: seq<int>, s: State)
    requires Faithful(caps, s.log)
  {
    && CapsOf(s.peer.tables) == caps
    && Faithful(caps, Settled(s)) && MapsOf(s.peer.tables) == Outcome(caps, Settled(s))
  }

  /** A recovering backup will have them once it has handled what it misses. */
  ghost predicate RecoveringPeer(caps: seq<int>, s: State)
    requires Faithful(caps, s.log)
  {
    && s.missing != [] && s.missing[|s.missing| - 1] == ACK_MESSAGE
    && var done := HandleAll(s.peer.tables, s.missing);
       AllValid(done) && CapsOf(done) == caps && MapsOf(done) == Outcome(caps, s.log)
  }

  ghost predicate PeerOk(caps: seq<int>, s: State)
    requires Faithful(caps, s.log)
  {
    if !s.peer.alive then s.missing == []
    else
      && !s.peer.primary && AllValid(s.peer.tables)
      && (s.lead.alive ==> s.lead.peerUp)
      && (s.peer.sizes.Some? ==> SizesMatch(s.peer.sizes.value, caps))
      && (if s.missing == [] then SyncedPeer(caps, s) else RecoveringPeer(caps, s))
  }

  /** All that is known of a torn server. */
  ghost predicate TornPeer(s: State) {
    !s.lead.alive && s.peer.alive && !s.peer.primary && AllValid(s.peer.tables)
  }

  predicate PhaseOk(s: State) {
    && (!s.lead.alive ==> s.phase.Idle?)
    && (s.lead.alive ==> (s.phase.Transferring? <==> s.missing != []))
    && (s.phase.Applied? || s.phase.Forwarded? ==> s.log != [] && !Last(s.log).answered)
  }

  ghost predicate SystemInv(caps: seq<int>, s: State) {
    Faithful(caps, s.log) && LeadOk(caps, s) && (if s.torn then TornPeer(s) else PeerOk(caps, s)) && PhaseOk(s)
  }

  /** When a client may be let in at the other server: the lead is dead, the other server has had everything
      of a state transfer but perhaps its ACK, and it took no message cut short for one that changes a table. */
  predicate PromoteSafe(s: State) {
    !s.lead.alive && |s.missing| <= 1 && !s.torn
  }

  predicate Guarded(s: State, step: Step) {
    Enabled(s, step) && (step.Promote? ==> PromoteSafe(s))
  }

  lemma {:induction false} CreateAllMaps(sizes: seq<CString>, caps: seq<int>)
    requires SizesAccepted(sizes) && SizesMatch(sizes, caps)
    ensures AllValid(CreateAll(sizes)) && CapsOf(CreateAll(sizes)) == caps && MapsOf(CreateAll(sizes)) == Empty(caps)
  {
    var ts := CreateAll(sizes);
    forall i | 0 <= i < |ts| ensures Valid(ts[i]) && Capacity(ts[i]) == caps[i] && Contents(ts[i]) == map[] {
      CoalescedMap.CreateRefines(Atoi(sizes[i]));
    }
  }

  lemma StartInv(caps: seq<int>, s: State)
    requires Start(caps, s)
    ensures SystemInv(caps, s)
  {
    CreateAllMaps(s.lead.sizes.value, caps);
    assert RequestsOf([]) == [] && RepliesOf([]) == [];
  }

  // ----- steps -----

  /** Serving a request and logging it go together. */
  lemma RequestServed(caps: seq<int>, ts: seq<Layout>, log: seq<Record>, m: Message)
    requires Faithful(caps, log) && AllValid(ts) && CapsOf(ts) == caps && MapsOf(ts) == Outcome(caps, log)
    requires 0 <= m.tableNum && Hashable(m)
    ensures Servable(ts, m)
    ensures var (us, reply) := Invoke(ts, m); var log1 := log + [Record(m, reply, false)];
      Faithful(caps, log1) && AllValid(us) && CapsOf(us) == caps && MapsOf(us) == Outcome(caps, log1)
  {
    hide Invoke, Effect, Answers, Outcome, AllAnswered;
    InvokeRefines(ts, m);
    LogSnoc(caps, log, Record(m, Invoke(ts, m).1, false));
  }

  lemma IdlePeer(caps: seq<int>, s: State)
    requires SystemInv(caps, s) && s.lead.alive && s.phase.Idle?
    ensures !s.torn && s.missing == [] && PeerOk(caps, s) && (s.peer.alive ==> s.lead.peerUp)
  {
  }

  lemma PeerStays(caps: seq<int>, s: State, s1: State)
    requires Faithful(caps, s.log) && Faithful(caps, s1.log) && PeerOk(caps, s)
    requires s1.peer == s.peer && s1.missing == s.missing == [] && Settled(s1) == Settled(s)
    requires s.peer.alive && s1.lead.alive ==> s1.lead.peerUp
    ensures PeerOk(caps, s1)
  {
    hide Outcome, AllAnswered;
  }

  lemma RequestKeeps(caps: seq<int>, s: State, m: Message)
    requires SystemInv(caps, s) && Enabled(s, Request(m))
    ensures SystemInv(caps, Take(s, Request(m)))
  {
    hide Invoke, Outcome, AllAnswered, PeerOk;
    IdlePeer(caps, s);
    RequestServed(caps, s.lead.tables, s.log, m);
    var s1 := Take(s, Request(m));
    assert Settled(s1) == s1.log[..|s1.log| - 1] == s.log;
    PeerStays(caps, s, s1);
  }

  /** A request answered with an error, or that is not a put or update, changes no map. */
  lemma NoEffect(stores: seq<Store>, caps: seq<int>, m: Message, reply: Message)
    requires 0 <= m.tableNum && Hashable(m) && |stores| == |caps| && Answers(stores, caps, m, reply)
    requires reply.opcode == OC_RT_ERROR || !(m.opcode == OC_PUT || m.opcode == OC_UPDATE) || !m.content.Entry?
    ensures Effect(stores, caps, m) == stores
  {
  }

  lemma HandleRefines(ts: seq<Layout>, m: Message)
    requires AllValid(ts) && 0 <= m.tableNum && Hashable(m)
    ensures AllValid(Handle(ts, m)) && CapsOf(Handle(ts, m)) == CapsOf(ts)
    ensures MapsOf(Handle(ts, m)) == Effect(MapsOf(ts), CapsOf(ts), m)
  {
    hide Invoke, Effect, Answers;
    InvokeRefines(ts, m);
  }

  /** Tables that hold all but the last request, and are handed it, hold it too. */
  lemma PassedOn(caps: seq<int>, ts: seq<Layout>, log: seq<Record>)
    requires log != [] && Faithful(caps, log) && Faithful(caps, log[..|log| - 1])
    requires AllValid(ts) && CapsOf(ts) == caps && MapsOf(ts) == Outcome(caps, log[..|log| - 1])
    ensures var us := Handle(ts, Last(log).request);
      AllValid(us) && CapsOf(us) == caps && MapsOf(us) == Outcome(caps, log)
  {
    hide Handle, Effect, Answers, Outcome, Faithful;
    LogCut(caps, log);
    HandleRefines(ts, Last(log).request);
  }

  /** A last request that is not to be passed on has no effect. */
  lemma PassedOver(caps: seq<int>, lead: Server, log: seq<Record>)
    requires log != [] && Faithful(caps, log) && lead.primary && lead.peerUp && !Forwards(lead, Last(log))
    ensures Faithful(caps, log[..|log| - 1]) && Outcome(caps, log) == Outcome(caps, log[..|log| - 1])
  {
    hide Effect, Answers, Outcome, Faithful;
    LogCut(caps, log);
    NoEffect(Outcome(caps, log[..|log| - 1]), caps, Last(log).request, Last(log).reply);
  }

  /** After the forward a synced backup has the pending request's effect too. */
  lemma ForwardReaches(caps: seq<int>, s: State)
    requires SystemInv(caps, s) && Enabled(s, Forward) && s.peer.alive
    ensures var ts := Take(s, Forward).peer.tables;
      AllValid(ts) && CapsOf(ts) == caps && MapsOf(ts) == Outcome(caps, s.log)
  {
    hide Handle, Outcome, Faithful;
    if Forwards(s.lead, Last(s.log)) {
      PassedOn(caps, s.peer.tables, s.log);
    } else {
      PassedOver(caps, s.lead, s.log);
    }
  }

  lemma ForwardKeeps(caps: seq<int>, s: State)
    requires SystemInv(caps, s) && Enabled(s, Forward)
    ensures SystemInv(caps, Take(s, Forward))
  {
    var s1 := Take(s, Forward);
    assert s1.log == s.log == Settled(s1) && s1.lead == s.lead;
    if s.peer.alive {
      ForwardReaches(caps, s);
    }
  }

  lemma AnswerKeeps(caps: seq<int>, s: State)
    requires SystemInv(caps, s) && Enabled(s, Answer)
    ensures SystemInv(caps, Take(s, Answer))
  {
    LogMark(caps, s.log);
  }

  lemma CrashLeadKeeps(caps: seq<int>, s: State)
    requires SystemInv(caps, s) && Enabled(s, CrashLead)
    ensures SystemInv(caps, Take(s, CrashLead))
  {
    if s.phase.Applied? {
      LogCut(caps, s.log);
    }
  }

  lemma HelloKeeps(caps: seq<int>, s: State)
    requires SystemInv(caps, s) && Enabled(s, Hello)
    ensures SystemInv(caps, Take(s, Hello))
  {
    var sizes, ts := s.lead.sizes.value, s.lead.tables;
    forall i | 0 <= i < |ts| ensures Atoi(sizes[i]) == Capacity(ts[i]) {
      assert CapsOf(ts)[i] == Capacity(ts[i]);
    }
    TransferPreserves([], sizes, ts);
  }

  lemma SendKeeps(caps: seq<int>, s: State)
    requires SystemInv(caps, s) && Enabled(s, Send)
    ensures SystemInv(caps, Take(s, Send))
  {
    HandleValid(s.peer.tables, s.missing[0]);
    var s1 := Take(s, Send);
    if s1.missing == [] {
      assert HandleAll(s1.peer.tables, []) == s1.peer.tables;
    } else {
      assert s1.missing[|s1.missing| - 1] == s.missing[|s.missing| - 1];
    }
  }

  lemma AckOnly(ts: seq<Layout>, ms: seq<Message>)
    requires |ms| == 1 && ms[0] == ACK_MESSAGE
    ensures HandleAll(ts, ms) == ts
  {
    assert ms == [ACK_MESSAGE];
    SingleHandle(ts, ACK_MESSAGE);
  }

  // ----- a message cut short -----

  /** Same capacities and same contents. */
  ghost predicate Alike(a: seq<Layout>, b: seq<Layout>) {
    CapsOf(a) == CapsOf(b) && MapsOf(a) == MapsOf(b)
  }

  lemma EffectChangesIff(stores: seq<Store>, caps: seq<int>, m: Message)
    requires |stores| == |caps| && 0 <= m.tableNum && Hashable(m)
    ensures Effect(stores, caps, m) != stores <==>
      m.tableNum < |stores| && Writes(stores[m.tableNum], caps[m.tableNum], m)
  {
    if m.tableNum < |stores| && Stores(stores[m.tableNum], caps[m.tableNum], m) {
      var store, k, v := stores[m.tableNum], m.content.key, m.content.value;
      assert Effect(stores, caps, m)[m.tableNum] == store[k := v];
      if k in store && store[k] == v {
        assert store[k := v] == store;
      } else {
        assert store[k := v][k] == v;
      }
    }
  }

  lemma CreateAllEmpty(sizes: seq<CString>)
    requires SizesAccepted(sizes)
    ensures forall i :: 0 <= i < |sizes| ==> Contents(CreateAll(sizes)[i]) == map[]
  {
    forall i | 0 <= i < |sizes| ensures Contents(CreateAll(sizes)[i]) == map[] {
      CoalescedMap.CreateRefines(Atoi(sizes[i]));
    }
  }

  lemma SizesChangeIff(ts: seq<Layout>, sizes: seq<CString>)
    requires SizesAccepted(sizes)
    ensures !Alike(CreateAll(sizes), ts) <==>
      CapsOf(CreateAll(sizes)) != CapsOf(ts) || exists i :: 0 <= i < |ts| && Contents(ts[i]) != map[]
  {
    CreateAllEmpty(sizes);
    var us := CreateAll(sizes);
    if CapsOf(us) == CapsOf(ts) {
      assert |us| == |CapsOf(us)| == |ts|;
      if MapsOf(us) == MapsOf(ts) {
        forall i | 0 <= i < |ts| ensures Contents(ts[i]) == map[] {
          assert MapsOf(us)[i] == MapsOf(ts)[i];
        }
      } else {
        var i :| 0 <= i < |ts| && MapsOf(us)[i] != MapsOf(ts)[i];
      }
    }
  }

  /** The test says exactly whether handling the message changes capacities or contents. */
  lemma ChangesIff(ts: seq<Layout>, m: Message)
    requires AllValid(ts)
    ensures Changes(ts, m) <==> !Alike(Handle(ts, m), ts)
  {
    hide Invoke, Effect, Writes;
    if m.tableNum == -1 {
      if m.opcode == OC_SZ_TABLES && m.content.KeyTexts? && SizesAccepted(m.content.texts) {
        SizesChangeIff(ts, m.content.texts);
      }
    } else if Servable(ts, m) {
      InvokeRefines(ts, m);
      EffectChangesIff(MapsOf(ts), CapsOf(ts), m);
    }
  }

  lemma HandleAlike(a: seq<Layout>, b: seq<Layout>, m: Message)
    requires AllValid(a) && AllValid(b) && Alike(a, b)
    ensures AllValid(Handle(a, m)) && AllValid(Handle(b, m)) && Alike(Handle(a, m), Handle(b, m))
  {
    hide Invoke, Effect;
    HandleValid(a, m);
    HandleValid(b, m);
    if m.tableNum >= 0 && Hashable(m) {
      InvokeRefines(a, m);
      InvokeRefines(b, m);
    }
  }

  lemma {:induction false} HandleAllAlike(a: seq<Layout>, b: seq<Layout>, ms: seq<Message>)
    requires AllValid(a) && AllValid(b) && Alike(a, b)
    ensures AllValid(HandleAll(a, ms)) && AllValid(HandleAll(b, ms)) && Alike(HandleAll(a, ms), HandleAll(b, ms))
    decreases |ms|
  {
    hide Handle;
    if ms != [] {
      HandleAlike(a, b, ms[0]);
      HandleAllAlike(Handle(a, ms[0]), Handle(b, ms[0]), ms[1..]);
    }
  }

  /** What a crash in the middle of a frame leaves the peer with, if that is not the message itself. */
  lemma StrayKeeps(caps: seq<int>, s: State, ts: seq<Layout>, torn: bool)
    requires SystemInv(caps, s) && s.lead.alive && s.peer.alive && InFlight(s).Some?
    requires AllValid(ts) && (torn <==> !Alike(ts, s.peer.tables))
    ensures SystemInv(caps, Crash(s).(peer := s.peer.(tables := ts), torn := torn))
  {
    CrashLeadKeeps(caps, s);
    StrayPeer(caps, Crash(s), ts, torn);
  }

  lemma StrayPeer(caps: seq<int>, s: State, ts: seq<Layout>, torn: bool)
    requires SystemInv(caps, s) && !s.lead.alive && s.peer.alive && !s.torn
    requires AllValid(ts) && (torn <==> !Alike(ts, s.peer.tables))
    ensures SystemInv(caps, s.(peer := s.peer.(tables := ts), torn := torn))
  {
    hide Handle, Outcome, Faithful;
    if !torn {
      HandleAllAlike(ts, s.peer.tables, s.missing);
    }
  }

  lemma DeliverKeeps(caps: seq<int>, s: State)
    requires SystemInv(caps, s) && s.lead.alive && s.peer.alive && InFlight(s).Some?
    ensures SystemInv(caps, Deliver(s))
  {
    if s.phase.Applied? {
      ForwardKeeps(caps, s);
    } else {
      SendKeeps(caps, s);
    }
  }

  lemma CutLands(caps: seq<int>, s: State)
    requires SystemInv(caps, s) && s.lead.alive && s.peer.alive && InFlight(s).Some?
    ensures SystemInv(caps, Crash(Deliver(s)))
  {
    DeliverKeeps(caps, s);
    CrashLeadKeeps(caps, Deliver(s));
  }

  lemma CutOffKeeps(caps: seq<int>, s: State, p: Parse<Message>)
    requires SystemInv(caps, s) && s.lead.alive && s.peer.alive && InFlight(s).Some?
    ensures SystemInv(caps, CutOff(s, p))
  {
    hide Handle, Changes, Survives, Crash, Deliver, Faithful, LeadOk, PhaseOk;
    assert s.peer.alive && AllValid(s.peer.tables);
    if !Survives(s.peer.tables, p) {
      CrashBothKeeps(caps, s);
    } else if Handle(s.peer.tables, p.value) == Handle(s.peer.tables, InFlight(s).value) {
      CutLands(caps, s);
    } else {
      HandleValid(s.peer.tables, p.value);
      ChangesIff(s.peer.tables, p.value);
      StrayKeeps(caps, s, Handle(s.peer.tables, p.value), Changes(s.peer.tables, p.value));
    }
  }

  lemma CrashBothKeeps(caps: seq<int>, s: State)
    requires SystemInv(caps, s) && s.lead.alive && s.peer.alive
    ensures SystemInv(caps, Crash(s).(peer := DOWN, missing := []))
  {
    CrashLeadKeeps(caps, s);
  }

  /** What a safely promoted server holds. */
  lemma PromotedHolds(caps: seq<int>, s: State)
    requires SystemInv(caps, s) && s.peer.alive && PromoteSafe(s)
    ensures CapsOf(s.peer.tables) == caps && MapsOf(s.peer.tables) == Outcome(caps, s.log)
  {
    if s.missing != [] {
      AckOnly(s.peer.tables, s.missing);
    }
  }

  lemma PromoteKeeps(caps: seq<int>, s: State)
    requires SystemInv(caps, s) && Enabled(s, Promote) && PromoteSafe(s)
    ensures SystemInv(caps, Take(s, Promote))
  {
    PromotedHolds(caps, s);
  }

  // ----- runs -----

  lemma QuietKeeps(caps: seq<int>, s: State, step: Step)
    requires SystemInv(caps, s) && Enabled(s, step) && (step.Drop? || step.CrashPeer? || step.Notice?)
    ensures SystemInv(caps, Take(s, step))
  {
  }

  lemma StepKeeps(caps: seq<int>, s: State, step: Step)
    requires SystemInv(caps, s) && Guarded(s, step)
    ensures SystemInv(caps, Take(s, step))
  {
    match step
    case Request(m) => RequestKeeps(caps, s, m);
    case Forward => ForwardKeeps(caps, s);
    case Answer => AnswerKeeps(caps, s);
    case Drop => QuietKeeps(caps, s, step);
    case CrashLead => CrashLeadKeeps(caps, s);
    case CrashSending(n, tail) => CutOffKeeps(caps, s, Arriving(InFlight(s).value, n, tail));
    case CrashPeer => QuietKeeps(caps, s, step);
    case Notice => QuietKeeps(caps, s, step);
    case Promote => PromoteKeeps(caps, s);
    case Hello => HelloKeeps(caps, s);
    case Send => SendKeeps(caps, s);
  }

  /** A run whose promotions are all safe. */
  ghost predicate SafeRun(s: State, steps: seq<Step>)
    decreases |steps|
  {
    steps == [] || (Guarded(s, steps[0]) && SafeRun(Take(s, steps[0]), steps[1..]))
  }

  ghost function Exec(s: State, steps: seq<Step>): State
    requires SafeRun(s, steps)
    decreases |steps|
  {
    if steps == [] then s else Exec(Take(s, steps[0]), steps[1..])
  }

  /** `a` followed by more. */
  ghost predicate Extends(b: seq<Record>, a: seq<Record>) {
    |a| <= |b| && b[..|a|] == a
  }

  lemma CutOffLog(s: State, p: Parse<Message>)
    requires InFlight(s).Some?
    ensures CutOff(s, p).log == s.log || CutOff(s, p).log == Settled(s)
  {
  }

  lemma SettledAnswers(s: State)
    requires PhaseOk(s)
    ensures AnsweredOf(Settled(s)) == AnsweredOf(s.log)
  {
  }

  /** Only the step Answer tells a client anything, and it tells the last request of the log. */
  lemma StepAnswers(s: State, step: Step)
    requires Enabled(s, step) && PhaseOk(s)
    ensures AnsweredOf(Take(s, step).log)
         == AnsweredOf(s.log) + (if step.Answer? then [Last(s.log).(answered := true)] else [])
  {
    hide CutOff, Handle, Invoke, AnsweredOf, InFlight, Encodable, Servable, Transfer;
    SettledAnswers(s);
    match step
    case Request(m) => LastAnswer(Take(s, step).log, s.log);
    case Answer =>
      var cut := s.log[..|s.log| - 1];
      LastAnswer(s.log, cut);
      LastAnswer(Take(s, step).log, cut);
    case CrashSending(n, tail) =>
      CutOffLog(s, Arriving(InFlight(s).value, n, tail));
    case _ =>
  }

  lemma LastAnswer(log: seq<Record>, cut: seq<Record>)
    requires log != [] && log[..|log| - 1] == cut
    ensures AnsweredOf(log) == AnsweredOf(cut) + (if Last(log).answered then [Last(log)] else [])
  {
  }

  function AnswerSteps(steps: seq<Step>): nat {
    if steps == [] then 0 else (if steps[0].Answer? then 1 else 0) + AnswerSteps(steps[1..])
  }

  lemma {:induction false} RunKeeps(caps: seq<int>, s: State, steps: seq<Step>)
    requires SystemInv(caps, s) && SafeRun(s, steps)
    ensures SystemInv(caps, Exec(s, steps))
    ensures Extends(AnsweredOf(Exec(s, steps).log), AnsweredOf(s.log))
    ensures |AnsweredOf(Exec(s, steps).log)| == |AnsweredOf(s.log)| + AnswerSteps(steps)
    decreases |steps|
  {
    hide Enabled, Take, LeadOk, PeerOk, TornPeer, PhaseOk, Faithful, AnsweredOf;
    if steps != [] {
      StepKeeps(caps, s, steps[0]);
      StepAnswers(s, steps[0]);
      RunKeeps(caps, Take(s, steps[0]), steps[1..]);
    }
  }

  /** Failover safety. In every run from startup, whatever the order of requests, forwards, answers,
      crashes, safe promotions and recoveries: the lead's tables hold exactly the maps its log of
      requests leads to; every reply in the log is the one a service of maps gives at that point; a
      live synced backup holds the same maps, or lags by the one request applied and not forwarded. */
  lemma FailoverSafety(caps: seq<int>, s0: State, steps: seq<Step>)
    requires Start(caps, s0) && SafeRun(s0, steps)
    ensures var s := Exec(s0, steps);
      && Serves(caps, s)
      && (s.peer.alive && s.missing == [] && !s.torn ==>
            Faithful(caps, Settled(s)) && MapsOf(s.peer.tables) == Outcome(caps, Settled(s)))
      && (Settled(s) == s.log || (s.phase.Applied? && Settled(s) == s.log[..|s.log| - 1] && !Last(s.log).answered))
  {
    StartInv(caps, s0);
    RunKeeps(caps, s0, steps);
  }

  /** What can happen is not narrowed: in every state of a safe run a live server can crash, inside a frame too
      once its length is out; a waiting lead takes any request it can serve, and reads the end of a dead backup;
      what was begun can go on, and a live backup can be promoted unless a transfer holds it. */
  lemma NothingBarred(caps: seq<int>, s0: State, steps: seq<Step>, m: Message, n: nat, tail: seq<Byte>)
    requires Start(caps, s0) && SafeRun(s0, steps)
    ensures var s := Exec(s0, steps);
      && (s.lead.alive ==> Enabled(s, CrashLead))
      && (s.peer.alive ==> Enabled(s, CrashPeer))
      && (s.lead.alive && s.peer.alive && InFlight(s).Some? ==>
            var f := InFlight(s).value;
            Encodable(f) && Streams.Sendable(f) && 4 <= n <= |Streams.Frame(f)| ==> Enabled(s, CrashSending(n, tail)))
      && (s.lead.alive && s.phase.Idle? && 0 <= m.tableNum && Hashable(m) ==> Enabled(s, Request(m)))
      && (s.phase.Applied? ==> Enabled(s, Forward))
      && (s.phase.Forwarded? ==>
            s.log != [] && (Encodable(Last(s.log).reply) ==> Enabled(s, Answer) && Enabled(s, Drop)))
      && (s.lead.alive && s.phase.Idle? && !s.peer.alive ==>
            Enabled(s, Notice) && (s.lead.sizes.Some? ==> Enabled(s, Hello)))
      && (s.phase.Transferring? ==> Enabled(s, Send))
      && (s.peer.alive && !s.phase.Transferring? ==> Enabled(s, Promote))
  {
    hide Faithful, Outcome, Servable, Exec, SafeRun, Start, Hashable, RecoveringPeer, SyncedPeer, InFlight, Encodable,
         Streams.Sendable, Streams.Frame, Valid, AnsweredOf, AnswerSteps, Extends;
    StartInv(caps, s0);
    RunKeeps(caps, s0, steps);
    var s := Exec(s0, steps);
    if s.lead.alive && 0 <= m.tableNum && Hashable(m) {
      ValidServable(s.lead.tables, m);
    }
  }

  /** Once the lead has read the end of the backup's connection, until a server says HELLO nothing is in
      flight and the backup stays down, whatever else happens. */
  lemma SilentAfterNotice(s: State, steps: seq<Step>)
    requires Enabled(s, Notice) && SafeRun(Take(s, Notice), steps)
    requires forall i :: 0 <= i < |steps| ==> !steps[i].Hello?
    ensures var t := Exec(Take(s, Notice), steps);
      InFlight(t) == None && !t.lead.peerUp && !t.peer.alive
  {
    RunSilent(Take(s, Notice), steps);
  }

  lemma {:induction false} RunSilent(s: State, steps: seq<Step>)
    requires !s.lead.peerUp && !s.peer.alive && !s.phase.Transferring? && SafeRun(s, steps)
    requires forall i :: 0 <= i < |steps| ==> !steps[i].Hello?
    ensures var t := Exec(s, steps); InFlight(t) == None && !t.lead.peerUp && !t.peer.alive
    decreases |steps|
  {
    hide Handle, Invoke, CutOff;
    if steps != [] {
      RunSilent(Take(s, steps[0]), steps[1..]);
    }
  }

  /** No reply a client has is ever taken back: along a run the answered requests only grow, in order, by one
      for each answer and by nothing else. */
  lemma AnswersStand(caps: seq<int>, s0: State, before: seq<Step>, after: seq<Step>)
    requires Start(caps, s0) && SafeRun(s0, before) && SafeRun(Exec(s0, before), after)
    ensures var earlier, later := AnsweredOf(Exec(s0, before).log), AnsweredOf(Exec(Exec(s0, before), after).log);
      Extends(later, earlier) && |later| == |earlier| + AnswerSteps(after)
  {
    StartInv(caps, s0);
    RunKeeps(caps, s0, before);
    RunKeeps(caps, Exec(s0, before), after);
  }

  // ----- what a client may rely on -----

  /** The record of a put or update of key `k` in table `t` that succeeded. */
  predicate Wrote(r: Record, t: int, k: Key) {
    Succeeded(r.request, r.reply) && r.request.tableNum == t && r.request.content.key == k
  }

  /** The place in the log of the last successful put or update of the key, -1 if there is none. */
  function LastWrite(log: seq<Record>, t: int, k: Key): (j: int)
    ensures -1 <= j < |log|
    ensures j >= 0 ==> Wrote(log[j], t, k)
    ensures forall i :: 0 <= i < |log| && Wrote(log[i], t, k) ==> i <= j
  {
    if log == [] then -1
    else if Wrote(Last(log), t, k) then |log| - 1
    else
      var cut := log[..|log| - 1];
      assert forall i :: 0 <= i < |cut| ==> cut[i] == log[i];
      LastWrite(cut, t, k)
  }

  /** Only a successful put or update of the key changes what it is bound to. */
  lemma EffectAt(stores: seq<Store>, caps: seq<int>, r: Record, t: int, k: Key)
    requires |stores| == |caps| && 0 <= t < |stores| && 0 <= r.request.tableNum && Hashable(r.request)
    requires Answers(stores, caps, r.request, r.reply)
    ensures var after := Effect(stores, caps, r.request)[t];
      if Wrote(r, t, k) then k in after && after[k] == r.request.content.value
      else (k in after <==> k in stores[t]) && (k in after ==> after[k] == stores[t][k])
  {
  }

  /** After any faithful log a key is bound if and only if some put or update of it succeeded, and then to
      the value of the last one. */
  lemma {:induction false} OutcomeIsLastWrite(caps: seq<int>, log: seq<Record>, t: int, k: Key)
    requires Faithful(caps, log) && 0 <= t < |caps|
    ensures var store, j := Outcome(caps, log)[t], LastWrite(log, t, k);
      (k in store <==> j >= 0) && (j >= 0 ==> store[k] == log[j].request.content.value)
  {
    if log == [] {
      assert Outcome(caps, []) == Empty(caps);
    } else {
      hide Answers, Effect, Faithful;
      var cut := log[..|log| - 1];
      LogCut(caps, log);
      OutcomeIsLastWrite(caps, cut, t, k);
      EffectAt(Outcome(caps, cut), caps, Last(log), t, k);
    }
  }

  lemma {:induction false} AnsweredInLog(log: seq<Record>, r: Record)
    requires r in AnsweredOf(log)
    ensures r in log && r.answered
  {
    if !(Last(log).answered && r == Last(log)) {
      AnsweredInLog(log[..|log| - 1], r);
    }
  }

  lemma LoggedAddresses(caps: seq<int>, log: seq<Record>, i: int)
    requires Faithful(caps, log) && 0 <= i < |log| && Succeeded(log[i].request, log[i].reply)
    ensures 0 <= log[i].request.tableNum < |caps| && Placeable(log[i].request.content.key)
    decreases |log|
  {
    LogCut(caps, log);
    if i < |log| - 1 {
      LoggedAddresses(caps, log[..|log| - 1], i);
    }
  }

  /** Once a client was told that its put or update succeeded, then at any later point of a safe run
      whichever server leads binds the key to the value of the last successful put or update of it in the
      log, which is that request or a later one. */
  lemma DurableWrites(caps: seq<int>, s0: State, before: seq<Step>, after: seq<Step>, r: Record)
    requires Start(caps, s0) && SafeRun(s0, before) && SafeRun(Exec(s0, before), after)
    requires r in AnsweredOf(Exec(s0, before).log) && Succeeded(r.request, r.reply)
    ensures var s := Exec(Exec(s0, before), after); var t, k := r.request.tableNum, r.request.content.key;
      && r in s.log && Placeable(k) && 0 <= t
      && var j := LastWrite(s.log, t, k);
      && (forall i :: 0 <= i < |s.log| && s.log[i] == r ==> i <= j)
      && (s.lead.alive ==>
            t < |s.lead.tables| && k in Contents(s.lead.tables[t])
            && Contents(s.lead.tables[t])[k] == s.log[j].request.content.value)
  {
    hide Faithful;
    StartInv(caps, s0);
    RunKeeps(caps, s0, before);
    RunKeeps(caps, Exec(s0, before), after);
    var s := Exec(Exec(s0, before), after);
    AnsweredInLog(s.log, r);
    var i :| 0 <= i < |s.log| && s.log[i] == r;
    LoggedAddresses(caps, s.log, i);
    OutcomeIsLastWrite(caps, s.log, r.request.tableNum, r.request.content.key);
    assert Wrote(s.log[i], r.request.tableNum, r.request.content.key);
    assert s.lead.alive ==> |s.lead.tables| == |caps|;
  }

  // ----- retries -----

  /** A put to this map would be rejected. */
  predicate Spent(stores: seq<Store>, caps: seq<int>, t: int, k: Key)
    requires |stores| == |caps|
  {
    0 <= t < |stores| ==> k in stores[t] || |stores[t]| >= caps[t]
  }

  lemma EffectKeepsSpent(stores: seq<Store>, caps: seq<int>, m: Message, t: int, k: Key)
    requires |stores| == |caps| && 0 <= m.tableNum && Hashable(m) && Spent(stores, caps, t, k)
    ensures Spent(Effect(stores, caps, m), caps, t, k)
  {
    if 0 <= t < |stores| && k !in stores[t] {
      MapGrows(stores[t], EffectOn(stores[t], caps[t], m), m);
    }
  }

  lemma MapGrows(store: Store, after: Store, m: Message)
    requires
      || after == store
      || (m.content.Entry? && Placeable(m.content.key) && after == store[m.content.key := m.content.value])
    ensures |after| >= |store|
  {
    if after != store && m.content.key in store {
      assert after.Keys == store.Keys;
      assert |after| == |after.Keys| && |store| == |store.Keys|;
    }
  }

  lemma EffectSpends(stores: seq<Store>, caps: seq<int>, m: Message)
    requires |stores| == |caps| && 0 <= m.tableNum && Hashable(m) && m.opcode == OC_PUT && m.content.Entry?
    ensures Spent(Effect(stores, caps, m), caps, m.tableNum, m.content.key)
  {
  }

  /** Behind any put in the log, successful or not, the same put would be rejected. */
  lemma {:induction false} LoggedPutSpent(caps: seq<int>, log: seq<Record>, i: int)
    requires Faithful(caps, log) && 0 <= i < |log|
    requires log[i].request.opcode == OC_PUT && log[i].request.content.Entry?
    ensures 0 <= log[i].request.tableNum && Hashable(log[i].request)
    ensures Spent(Outcome(caps, log), caps, log[i].request.tableNum, log[i].request.content.key)
    decreases |log|
  {
    hide Effect, Answers, Spent, AllAnswered, Outcome;
    LogCut(caps, log);
    var cut := log[..|log| - 1];
    if i == |log| - 1 {
      EffectSpends(Outcome(caps, cut), caps, Last(log).request);
    } else {
      LoggedPutSpent(caps, cut, i);
      var m := log[i].request;
      EffectKeepsSpent(Outcome(caps, cut), caps, Last(log).request, m.tableNum, m.content.key);
    }
  }

  lemma SpentRejected(ts: seq<Layout>, m: Message)
    requires AllValid(ts) && 0 <= m.tableNum && Hashable(m) && m.opcode == OC_PUT && m.content.Entry?
    requires Spent(MapsOf(ts), CapsOf(ts), m.tableNum, m.content.key)
    ensures Servable(ts, m) && Invoke(ts, m).1 == ERROR_REPLY && MapsOf(Invoke(ts, m).0) == MapsOf(ts)
  {
    hide Invoke;
    InvokeRefines(ts, m);
  }

  /** A put that is in the log, requested again of whichever server leads at that point of a safe run, is
      answered with the error and changes no map. */
  lemma LoggedPutRetrySafe(caps: seq<int>, s0: State, steps: seq<Step>, r: Record)
    requires Start(caps, s0) && SafeRun(s0, steps)
    requires var s := Exec(s0, steps); r in s.log && s.lead.alive && s.phase.Idle?
    requires r.request.opcode == OC_PUT && r.request.content.Entry?
    ensures var s := Exec(s0, steps);
      && Enabled(s, Request(r.request))
      && var s1 := Take(s, Request(r.request));
      && s1.log == s.log + [Record(r.request, ERROR_REPLY, false)]
      && MapsOf(s1.lead.tables) == MapsOf(s.lead.tables)
  {
    hide Spent, AllAnswered, Outcome, Invoke;
    StartInv(caps, s0);
    RunKeeps(caps, s0, steps);
    var s := Exec(s0, steps);
    var i :| 0 <= i < |s.log| && s.log[i] == r;
    LoggedPutSpent(caps, s.log, i);
    SpentRejected(s.lead.tables, r.request);
  }
}
