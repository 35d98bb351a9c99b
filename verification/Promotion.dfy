/** When promotion is safe: exactly when the lead is dead, the other server has had everything of a state
    transfer but perhaps its ACK, and it took no message cut short for one that changes a table. */
module Promotion {
  import opened Bytes
  import opened Hashing
  import opened Messages
  import opened Codec
  import opened Coalesced
  import CoalescedMap
  import opened Dispatch
  import opened StateTransfer
  import opened TableSizes
  import opened Replication
  import opened ReplicationProofs
  import opened CutFrames

  /** How many bindings the maps hold together. */
  function Total(stores: seq<Store>): int {
    if stores == [] then 0 else |stores[0]| + Total(stores[1..])
  }

  lemma {:induction false} TotalUpdate(stores: seq<Store>, i: int, x: Store)
    requires 0 <= i < |stores|
    ensures Total(stores[i := x]) == Total(stores) - |stores[i]| + |x|
  {
    if i > 0 {
      TotalUpdate(stores[1..], i - 1, x);
      assert stores[i := x][1..] == stores[1..][i - 1 := x];
    } else {
      assert stores[i := x][1..] == stores[1..];
    }
  }

  lemma {:induction false} TotalEmpty(caps: seq<int>)
    ensures Total(Empty(caps)) == 0
  {
    if caps != [] {
      assert Empty(caps)[1..] == Empty(caps[1..]);
      TotalEmpty(caps[1..]);
    }
  }

  lemma {:induction false} TotalOfMaps(ts: seq<Layout>, i: nat)
    requires AllValid(ts) && i <= |ts|
    ensures TotalFilled(ts, i) == Total(MapsOf(ts)[i..])
    decreases |ts| - i
  {
    if i < |ts| {
      TotalOfMaps(ts, i + 1);
      CoalescedMap.SizeRefines(ts[i]);
      assert MapsOf(ts)[i..][1..] == MapsOf(ts)[i + 1..];
    }
  }

  ghost predicate ArePuts(ms: seq<Message>, n: int) {
    forall i :: 0 <= i < |ms| ==>
      ms[i].opcode == OC_PUT && 0 <= ms[i].tableNum < n && ms[i].content.Entry? && Placeable(ms[i].content.key)
  }

  /** The puts of a transfer, without the ACK. */
  function Body(ms: seq<Message>): seq<Message>
    requires ms != []
  {
    ms[..|ms| - 1]
  }

  /** Tables `ts` lack at least as many of `total` bindings as there are puts in `ms`. */
  ghost predicate Misses(caps: seq<int>, ts: seq<Layout>, ms: seq<Message>, total: int) {
    && ms != [] && ms[|ms| - 1] == ACK_MESSAGE && ArePuts(Body(ms), |caps|)
    && CapsOf(ts) == caps
    && Total(MapsOf(ts)) + |ms| - 1 <= total
  }

  /** The receiver still holds nothing and is to create its tables next. */
  ghost predicate BeforeSizes(caps: seq<int>, s: State) {
    && s.peer.tables == [] && |s.missing| >= 2
    && exists sizes :: SizesAccepted(sizes) && SizesMatch(sizes, caps) && s.missing[0] == SizesMessage(sizes)
  }

  /** The tables are not those the log leads to. */
  ghost predicate Wrong(caps: seq<int>, ts: seq<Layout>, log: seq<Record>)
    requires Faithful(caps, log)
  {
    CapsOf(ts) != caps || MapsOf(ts) != Outcome(caps, log)
  }

  ghost predicate LacksAll(caps: seq<int>, s: State, total: int) {
    && BeforeSizes(caps, s) && s.missing[|s.missing| - 1] == ACK_MESSAGE
    && ArePuts(Body(s.missing[1..]), |caps|) && |s.missing| - 2 <= total
  }

  /** A recovering server lacks at least as many bindings as it still misses puts, and a torn one is wrong. */
  ghost predicate Lacks(caps: seq<int>, s: State)
    requires Faithful(caps, s.log)
  {
    if s.torn then Wrong(caps, s.peer.tables, s.log)
    else
      var total := Total(Outcome(caps, s.log));
      s.missing == [] || LacksAll(caps, s, total) || Misses(caps, s.peer.tables, s.missing, total)
  }

  lemma TransferParts(sizes: seq<CString>, ts: seq<Layout>)
    requires |ts| <= 0x7FFF
    ensures var ms := Transfer(sizes, ts);
      && |ms| == |AllPuts(ts, 0)| + 2
      && ms[0] == SizesMessage(sizes) && ms[|ms| - 1] == ACK_MESSAGE && Body(ms[1..]) == AllPuts(ts, 0)
  {
    hide AllPuts;
  }

  lemma TransferShape(caps: seq<int>, sizes: seq<CString>, ts: seq<Layout>)
    requires AllValid(ts) && CapsOf(ts) == caps && SizesMatch(sizes, caps)
    ensures SizesAccepted(sizes)
    ensures var ms := Transfer(sizes, ts);
      && |ms| == Total(MapsOf(ts)) + 2
      && ms[0] == SizesMessage(sizes) && ms[|ms| - 1] == ACK_MESSAGE && ArePuts(Body(ms[1..]), |caps|)
  {
    hide Atoi, AllPuts, Transfer, Body, TotalFilled, Total;
    assert |CapsOf(ts)| == |ts|;
    TransferParts(sizes, ts);
    AllPutsArePuts(ts, 0);
    AllPutsCount(ts, 0);
    TotalOfMaps(ts, 0);
    assert MapsOf(ts)[0..] == MapsOf(ts);
    forall i | 0 <= i < |sizes| ensures Atoi(sizes[i]) > 0 {
      ValidInBounds(ts[i]);
      assert CapsOf(ts)[i] == caps[i];
    }
  }

  lemma NewLacksAll(caps: seq<int>, s: State, sizes: seq<CString>, ts: seq<Layout>)
    requires s.peer.tables == [] && |ts| <= 0x7FFF && s.missing == Transfer(sizes, ts)
    requires AllValid(ts) && CapsOf(ts) == caps && SizesMatch(sizes, caps)
    ensures LacksAll(caps, s, Total(MapsOf(ts)))
  {
    hide Transfer, Total, Body, ArePuts, MapsOf, CapsOf, Atoi, SizesAccepted, SizesMatch, AllValid, AllPuts;
    TransferShape(caps, sizes, ts);
    TotalNatural(MapsOf(ts));
  }

  lemma HelloLacks(caps: seq<int>, s: State)
    requires SystemInv(caps, s) && Enabled(s, Hello)
    ensures Take(s, Hello).log == s.log
    ensures Lacks(caps, Take(s, Hello))
  {
    hide HandleAll, Transfer, LacksAll, Misses, Outcome, PeerOk;
    NewLacksAll(caps, Take(s, Hello), s.lead.sizes.value, s.lead.tables);
  }

  lemma PutAddsAtMostOne(ts: seq<Layout>, m: Message)
    requires AllValid(ts) && 0 <= m.tableNum < |ts| && m.content.Entry? && Placeable(m.content.key)
    ensures CapsOf(Handle(ts, m)) == CapsOf(ts)
    ensures Total(MapsOf(Handle(ts, m))) <= Total(MapsOf(ts)) + 1
  {
    HandleRefines(ts, m);
    EffectAddsAtMostOne(MapsOf(ts), CapsOf(ts), m);
  }

  lemma EffectAddsAtMostOne(stores: seq<Store>, caps: seq<int>, m: Message)
    requires |stores| == |caps| && 0 <= m.tableNum < |stores| && Hashable(m)
    ensures Total(Effect(stores, caps, m)) <= Total(stores) + 1
  {
    TotalUpdate(stores, m.tableNum, EffectOn(stores[m.tableNum], caps[m.tableNum], m));
  }

  lemma MissesStep(caps: seq<int>, ts: seq<Layout>, ms: seq<Message>, total: int)
    requires AllValid(ts) && Misses(caps, ts, ms, total) && |ms| > 1
    ensures Misses(caps, Handle(ts, ms[0]), ms[1..], total)
  {
    assert Body(ms[1..]) == Body(ms)[1..];
    assert ms[0] == Body(ms)[0];
    PutAddsAtMostOne(ts, ms[0]);
  }

  lemma SizesStep(caps: seq<int>, s: State, total: int)
    requires LacksAll(caps, s, total)
    ensures Misses(caps, Handle(s.peer.tables, s.missing[0]), s.missing[1..], total)
  {
    var sizes :| SizesAccepted(sizes) && SizesMatch(sizes, caps) && s.missing[0] == SizesMessage(sizes);
    CreateAllMaps(sizes, caps);
    TotalEmpty(caps);
  }

  lemma SendLacks(caps: seq<int>, s: State)
    requires Faithful(caps, s.log) && AllValid(s.peer.tables) && Enabled(s, Send) && !s.torn && Lacks(caps, s)
    ensures Take(s, Send).log == s.log
    ensures Lacks(caps, Take(s, Send))
  {
    var total := Total(Outcome(caps, s.log));
    if |s.missing| > 1 {
      if Misses(caps, s.peer.tables, s.missing, total) {
        MissesStep(caps, s.peer.tables, s.missing, total);
      } else {
        SizesStep(caps, s, total);
      }
    }
  }

  // ----- a message cut short -----

  lemma LacksAlike(caps: seq<int>, s: State, ts: seq<Layout>)
    requires Faithful(caps, s.log) && !s.torn && Lacks(caps, s) && Alike(ts, s.peer.tables)
    ensures Lacks(caps, s.(peer := s.peer.(tables := ts)))
  {
    if s.peer.tables == [] {
      assert |CapsOf(ts)| == 0;
    }
  }

  lemma LacksUnled(caps: seq<int>, s: State, lead: Server, phase: Phase)
    requires Faithful(caps, s.log) && Lacks(caps, s)
    ensures Lacks(caps, s.(lead := lead, phase := phase))
  {
  }

  /** Tables that are new from the same capacities are the same. */
  lemma {:induction false} CreateAllSame(a: seq<CString>, b: seq<CString>)
    requires SizesAccepted(a) && SizesAccepted(b) && CapsOf(CreateAll(a)) == CapsOf(CreateAll(b))
    ensures CreateAll(a) == CreateAll(b)
  {
    assert |a| == |CapsOf(CreateAll(a))| == |b|;
    forall i | 0 <= i < |a| ensures CreateAll(a)[i] == CreateAll(b)[i] {
      assert CapsOf(CreateAll(a))[i] == Atoi(a[i]) && CapsOf(CreateAll(b))[i] == Atoi(b[i]);
    }
  }

  /** New sizes other than the ones in flight, at a server without tables. */
  lemma StraySizesWrong(caps: seq<int>, s: State, d: Message)
    requires Faithful(caps, s.log) && BeforeSizes(caps, s) && Changes(s.peer.tables, d)
    requires Handle(s.peer.tables, d) != Handle(s.peer.tables, s.missing[0])
    ensures Wrong(caps, Handle(s.peer.tables, d), s.log)
  {
    var sizes :| SizesAccepted(sizes) && SizesMatch(sizes, caps) && s.missing[0] == SizesMessage(sizes);
    CreateAllMaps(sizes, caps);
    if CapsOf(Handle(s.peer.tables, d)) == caps {
      CreateAllSame(d.content.texts, sizes);
    }
  }

  lemma {:induction false} TotalOfNothing(stores: seq<Store>)
    requires forall i :: 0 <= i < |stores| ==> stores[i] == map[]
    ensures Total(stores) == 0
  {
    if stores != [] {
      TotalOfNothing(stores[1..]);
    }
  }

  lemma PutThenAck(ts: seq<Layout>, ms: seq<Message>)
    requires |ms| == 2 && ms[1] == ACK_MESSAGE
    ensures HandleAll(ts, ms) == Handle(ts, ms[0])
  {
    assert ms[1..] == [ACK_MESSAGE];
    AckOnly(Handle(ts, ms[0]), ms[1..]);
  }

  /** New sizes, at a server that still misses puts. */
  lemma StrayNewSizesWrong(caps: seq<int>, ts: seq<Layout>, ms: seq<Message>, log: seq<Record>, d: Message)
    requires Faithful(caps, log) && Misses(caps, ts, ms, Total(Outcome(caps, log))) && |ms| >= 2
    requires Total(MapsOf(ts)) >= 0 && d.tableNum == -1 && Changes(ts, d)
    ensures Wrong(caps, Handle(ts, d), log)
  {
    hide Handle, AllAnswered, Outcome, Changes;
    var us := Handle(ts, d);
    forall i | 0 <= i < |us| ensures MapsOf(us)[i] == map[] {
      SizesEmpty(ts, d, i);
    }
    TotalOfNothing(MapsOf(us));
  }

  lemma {:induction false} TotalNatural(stores: seq<Store>)
    ensures Total(stores) >= 0
  {
    if stores != [] {
      TotalNatural(stores[1..]);
    }
  }

  /** A request other than the next put, at a server that still misses puts. */
  lemma StrayRequestWrong(caps: seq<int>, ts: seq<Layout>, ms: seq<Message>, maps: seq<Store>, d: Message)
    requires AllValid(ts) && Misses(caps, ts, ms, Total(maps)) && |ms| >= 2
    requires |ms| == 2 ==> MapsOf(Handle(ts, ms[0])) == maps
    requires d.tableNum != -1 && d != ms[0] && Changes(ts, d)
    ensures MapsOf(Handle(ts, d)) != maps
  {
    hide Handle, Effect, Changes;
    assert ms[0] == Body(ms)[0];
    ChangesAdds(ts, d);
    if |ms| == 2 {
      HandleRefines(ts, ms[0]);
      StrayIsNotRequest(caps, ts, maps, ms[0], d);
    }
  }

  /** Another message than the next one, at a server that still misses puts. */
  lemma StrayPutWrong(caps: seq<int>, ts: seq<Layout>, ms: seq<Message>, log: seq<Record>, d: Message)
    requires Faithful(caps, log) && AllValid(ts) && Misses(caps, ts, ms, Total(Outcome(caps, log))) && |ms| >= 2
    requires CapsOf(HandleAll(ts, ms)) == caps && MapsOf(HandleAll(ts, ms)) == Outcome(caps, log)
    requires Changes(ts, d) && Handle(ts, d) != Handle(ts, ms[0])
    ensures Wrong(caps, Handle(ts, d), log)
  {
    hide Handle, AllAnswered, Outcome, Changes, ArePuts;
    if d.tableNum == -1 {
      TotalNatural(MapsOf(ts));
      StrayNewSizesWrong(caps, ts, ms, log, d);
    } else {
      if |ms| == 2 {
        PutThenAck(ts, ms);
      }
      StrayRequestWrong(caps, ts, ms, Outcome(caps, log), d);
    }
  }

  lemma ChangesServable(ts: seq<Layout>, d: Message)
    requires d.tableNum != -1 && Changes(ts, d)
    ensures Servable(ts, d) && d.tableNum < |ts|
  {
  }

  lemma ChangesAdds(ts: seq<Layout>, d: Message)
    requires AllValid(ts) && d.tableNum != -1 && Changes(ts, d)
    ensures Total(MapsOf(Handle(ts, d))) <= Total(MapsOf(ts)) + 1
  {
    hide Handle, Effect;
    ChangesServable(ts, d);
    HandleRefines(ts, d);
    EffectAddsAtMostOne(MapsOf(ts), CapsOf(ts), d);
  }

  /** A message taken for another one that changes a table leaves the peer with tables of no log. */
  lemma TornIsWrong(caps: seq<int>, s: State, d: Message)
    requires SystemInv(caps, s) && s.lead.alive && s.peer.alive && !s.torn && Lacks(caps, s)
    requires InFlight(s).Some? && Changes(s.peer.tables, d)
    requires Handle(s.peer.tables, d) != Handle(s.peer.tables, InFlight(s).value)
    ensures Faithful(caps, Settled(s)) && Wrong(caps, Handle(s.peer.tables, d), Settled(s))
  {
    hide Handle, AllAnswered, Outcome, Changes, BeforeSizes, Misses;
    ChangesIff(s.peer.tables, d);
    if s.phase.Transferring? {
      if |s.missing| == 1 {
        AckOnly(s.peer.tables, s.missing);
      } else if BeforeSizes(caps, s) {
        StraySizesWrong(caps, s, d);
      } else {
        StrayPutWrong(caps, s.peer.tables, s.missing, s.log, d);
      }
    }
  }

  lemma CutOffLacks(caps: seq<int>, s: State, p: Parse<Message>)
    requires SystemInv(caps, s) && s.lead.alive && s.peer.alive && InFlight(s).Some? && Lacks(caps, s)
    ensures Faithful(caps, CutOff(s, p).log) && Lacks(caps, CutOff(s, p))
  {
    hide Handle, AllAnswered, Outcome, Changes, Survives, BeforeSizes, Misses;
    CutOffKeeps(caps, s, p);
    if Survives(s.peer.tables, p) {
      if Handle(s.peer.tables, p.value) == Handle(s.peer.tables, InFlight(s).value) {
        if s.phase.Transferring? {
          SendLacks(caps, s);
          LacksUnled(caps, Deliver(s), DOWN, Idle);
        }
      } else if Changes(s.peer.tables, p.value) {
        TornIsWrong(caps, s, p.value);
      } else if s.phase.Transferring? {
        ChangesIff(s.peer.tables, p.value);
        LacksAlike(caps, s, Handle(s.peer.tables, p.value));
        LacksUnled(caps, s.(peer := s.peer.(tables := Handle(s.peer.tables, p.value))), DOWN, Idle);
      }
    }
  }

  lemma StepLacks(caps: seq<int>, s: State, step: Step)
    requires SystemInv(caps, s) && Guarded(s, step) && Lacks(caps, s)
    ensures Faithful(caps, Take(s, step).log) && Lacks(caps, Take(s, step))
  {
    hide Handle, AllAnswered, Outcome, CutOff, HandleAll, BeforeSizes, Misses;
    if step.Hello? {
      HelloLacks(caps, s);
    } else if step.Send? {
      SendLacks(caps, s);
    } else if step.CrashSending? {
      CutOffLacks(caps, s, Arriving(InFlight(s).value, step.n, step.tail));
    } else if step.CrashLead? && s.phase.Transferring? {
      LacksUnled(caps, s, DOWN, Idle);
    } else {
      StepKeeps(caps, s, step);
      MissesNothing(s, step);
    }
  }

  /** The other steps leave no transfer open. */
  lemma MissesNothing(s: State, step: Step)
    requires PhaseOk(s) && Guarded(s, step) && (s.torn ==> !s.lead.alive)
    requires !step.Hello? && !step.Send? && !step.CrashSending? && !(step.CrashLead? && s.phase.Transferring?)
    ensures !Take(s, step).torn && Take(s, step).missing == []
  {
    hide Invoke, Handle, CutOff;
  }

  lemma {:induction false} RunLacks(caps: seq<int>, s: State, steps: seq<Step>)
    requires SystemInv(caps, s) && SafeRun(s, steps) && Lacks(caps, s)
    ensures SystemInv(caps, Exec(s, steps)) && Lacks(caps, Exec(s, steps))
    decreases |steps|
  {
    if steps != [] {
      StepKeeps(caps, s, steps[0]);
      StepLacks(caps, s, steps[0]);
      RunLacks(caps, Take(s, steps[0]), steps[1..]);
    }
  }

  lemma MissingIsLost(caps: seq<int>, s: State)
    requires SystemInv(caps, s) && !s.torn && Lacks(caps, s) && caps != [] && |s.missing| > 1
    ensures MapsOf(s.peer.tables) != Outcome(caps, s.log)
  {
    if s.peer.tables == [] {
      assert |MapsOf(s.peer.tables)| == 0;
    }
  }

  lemma PromotionAt(caps: seq<int>, s: State)
    requires SystemInv(caps, s) && Lacks(caps, s) && Enabled(s, Promote)
    ensures Serves(caps, Take(s, Promote)) <==> PromoteSafe(s) || (caps == [] && !s.lead.alive && !s.torn)
  {
    hide AllAnswered, Outcome, BeforeSizes, Misses, HandleAll;
    if PromoteSafe(s) {
      PromotedHolds(caps, s);
    } else if !s.lead.alive && !s.torn {
      if caps == [] {
        NoTables(caps, s);
      } else {
        MissingIsLost(caps, s);
      }
    }
  }

  /** Without tables there is nothing to miss. */
  lemma NoTables(caps: seq<int>, s: State)
    requires Faithful(caps, s.log) && !s.torn && s.missing != [] && Lacks(caps, s) && caps == []
    ensures CapsOf(s.peer.tables) == caps && MapsOf(s.peer.tables) == Outcome(caps, s.log)
  {
    assert |CapsOf(s.peer.tables)| == |s.peer.tables|;
  }

  /** At any point of a run so far safe, whatever crashes cut short, letting a client in at the other server
      keeps the service faithful if and only if the lead is dead, the transfer is complete up to its ACK,
      and the other server took no cut message for one that changes a table; a service without any tables has
      no transfer to wait for. The code has no such guard: it promotes on every connection. */
  lemma PromotionExact(caps: seq<int>, s0: State, steps: seq<Step>)
    requires Start(caps, s0) && SafeRun(s0, steps)
    requires Enabled(Exec(s0, steps), Promote)
    ensures var s := Exec(s0, steps);
      Serves(caps, Take(s, Promote)) <==> PromoteSafe(s) || (caps == [] && !s.lead.alive && !s.torn)
  {
    hide Faithful, Lacks;
    StartInv(caps, s0);
    StartLacks(caps, s0);
    RunLacks(caps, s0, steps);
    PromotionAt(caps, Exec(s0, steps));
  }

  lemma StartLacks(caps: seq<int>, s0: State)
    requires Start(caps, s0)
    ensures Faithful(caps, s0.log) && Lacks(caps, s0)
  {
    hide Lacks;
    StartInv(caps, s0);
    assert !s0.torn && s0.missing == [];
    LacksNothing(caps, s0);
  }

  lemma LacksNothing(caps: seq<int>, s: State)
    requires Faithful(caps, s.log) && !s.torn && s.missing == []
    ensures Lacks(caps, s)
  {
  }

  /** What an unsafe promotion costs. From any start with both servers up: a client that reaches the
      backup while the primary lives is told that its put succeeded, and the old primary, which still
      serves clients of its own, never learns of it. */
  lemma SplitBrain(caps: seq<int>, s0: State, m: Message) returns (s1: State, s2: State, s3: State, s: State)
    requires Start(caps, s0) && s0.peer.alive && IsPut(caps, m)
    ensures Enabled(s0, Promote) && s1 == Take(s0, Promote)
    ensures Enabled(s1, Request(m)) && s2 == Take(s1, Request(m))
    ensures Enabled(s2, Forward) && s3 == Take(s2, Forward)
    ensures Enabled(s3, Answer) && s == Take(s3, Answer)
    ensures AnsweredOf(s.log) == [Record(m, Reply(m, Result(0)), true)]
    ensures s.peer.alive && s.peer.primary && MapsOf(s.peer.tables) == Empty(caps)
    ensures |s.lead.tables| == |caps| && m.content.key in MapsOf(s.lead.tables)[m.tableNum]
  {
    hide Invoke, Handle, HandleAll, Empty;
    StartShape(caps, s0);
    FirstPut(caps, s0.peer.tables, m);
    var r := Record(m, Reply(m, Result(0)), false);
    s1 := Take(s0, Promote);
    s2 := Take(s1, Request(m));
    assert s2.log == [r];
    s3 := Take(s2, Forward);
    assert s3 == s2.(phase := Forwarded);
    s := Take(s3, Answer);
    OneAnswered(s3.log, s.log, r);
  }

  lemma OneAnswered(before: seq<Record>, log: seq<Record>, r: Record)
    requires before == [r] && log == before[0 := r.(answered := true)]
    ensures AnsweredOf(log) == [r.(answered := true)]
  {
    assert log == [r.(answered := true)] && log[..0] == [] && AnsweredOf([]) == [];
  }

  /** The steps of a transfer that breaks off before anything is sent. */
  lemma BreakOff(s0: State) returns (s1: State, s2: State, s3: State, s: State)
    requires s0.lead.alive && s0.peer.alive && s0.phase.Idle? && s0.lead.sizes.Some? && |s0.lead.tables| <= 0x7FFF
    ensures Enabled(s0, CrashPeer) && s1 == Take(s0, CrashPeer)
    ensures Enabled(s1, Hello) && s2 == Take(s1, Hello)
    ensures Enabled(s2, CrashLead) && s3 == Take(s2, CrashLead)
    ensures Enabled(s3, Promote) && s == Take(s3, Promote)
    ensures !s3.lead.alive && !s3.torn && s.lead.alive && s.lead.tables == []
  {
    s1 := Take(s0, CrashPeer);
    s2 := Take(s1, Hello);
    s3 := Take(s2, CrashLead);
    s := Take(s3, Promote);
  }

  /** What a promotion costs behind a transfer that broke off. From any start with both servers up: the backup
      crashes and says HELLO, the primary dies before anything is sent, and the promoted server has no table. */
  lemma BrokenTransfer(caps: seq<int>, s0: State) returns (s1: State, s2: State, s3: State, s: State)
    requires Start(caps, s0) && s0.peer.alive && caps != []
    ensures Enabled(s0, CrashPeer) && s1 == Take(s0, CrashPeer)
    ensures Enabled(s1, Hello) && s2 == Take(s1, Hello)
    ensures Enabled(s2, CrashLead) && s3 == Take(s2, CrashLead)
    ensures Enabled(s3, Promote) && s == Take(s3, Promote)
    ensures !s3.lead.alive && !s3.torn && s.lead.alive && s.lead.tables == [] && !Serves(caps, s)
  {
    hide Take, Enabled, Serves;
    StartShape(caps, s0);
    StartHasSizes(caps, s0);
    s1, s2, s3, s := BreakOff(s0);
    NoTablesServeNothing(caps, s);
  }

  lemma NoTablesServeNothing(caps: seq<int>, s: State)
    requires s.lead.alive && s.lead.tables == [] && caps != []
    ensures !Serves(caps, s)
  {
    assert CapsOf(s.lead.tables) == [];
  }

  lemma StartHasSizes(caps: seq<int>, s0: State)
    requires Start(caps, s0)
    ensures s0.lead.sizes.Some? && |s0.lead.tables| == |caps| <= 0x7FFF
  {
  }
}
