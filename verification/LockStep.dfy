/** While no server crashes, primary and backup stay slot for slot alike, up to the collision counters. */
module LockStep {
  import opened Bytes
  import opened Hashing
  import opened Messages
  import opened Coalesced
  import opened CoalescedInvariant
  import opened CoalescedPut
  import CoalescedMap
  import CoalescedRuns
  import opened Dispatch
  import opened StateTransfer
  import opened TableSizes
  import opened Replication
  import opened ReplicationProofs
  import opened CutFrames

  /** `a` is `b` with `d` more collisions. */
  predicate Ahead(a: Layout, b: Layout, d: int) {
    a == b.(collisions := b.collisions + d)
  }

  /** What put does to the slots, the cursor and `filled` does not depend on `collisions`. */
  lemma PutIgnoresCollisions(a: Layout, b: Layout, d: int, k: Key, v: Data)
    requires InBounds(a) && Ahead(a, b, d)
    ensures InBounds(b) && Put(a, k, v).1 == Put(b, k, v).1 && Ahead(Put(a, k, v).0, Put(b, k, v).0, d)
  {
  }

  lemma UpdateIgnoresCollisions(a: Layout, b: Layout, d: int, k: Key, v: Data)
    requires InBounds(a) && Ahead(a, b, d)
    ensures InBounds(b) && Update(a, k, v).1 == Update(b, k, v).1 && Ahead(Update(a, k, v).0, Update(b, k, v).0, d)
  {
  }

  /** The request is a put on table `i` rejected only after `collisions` was incremented. */
  ghost predicate LateReject(ts: seq<Layout>, m: Message, i: int)
    requires Servable(ts, m) && 0 <= i < |ts|
  {
    m.opcode == OC_PUT && m.tableNum == i && m.content.Entry? && RejectedBeyondHead(ts[i], m.content.key)
  }

  /** One request at the primary, and the forward of it at the backup. */
  function MirrorStep(p: seq<Layout>, b: seq<Layout>, m: Message): (r: (seq<Layout>, seq<Layout>))
    requires Servable(p, m)
  {
    var (p1, reply) := Invoke(p, m);
    (p1, if Succeeded(m, reply) then Handle(b, m) else b)
  }

  /** For each table the backup has the primary's slots, links, cursor and `filled`. */
  ghost predicate Aligned(p: seq<Layout>, b: seq<Layout>, ahead: seq<int>) {
    && |p| == |b| == |ahead|
    && forall i :: 0 <= i < |p| ==> Ahead(p[i], b[i], ahead[i])
  }

  lemma AheadOnTable(a: Layout, b: Layout, d: int, m: Message)
    requires Valid(a) && Hashable(m) && Ahead(a, b, d) && InBounds(a) && InBounds(b)
    ensures var (a1, reply) := InvokeOn(a, m);
      var late := m.opcode == OC_PUT && m.content.Entry? && RejectedBeyondHead(a, m.content.key);
      Ahead(a1, if Succeeded(m, reply) then InvokeOn(b, m).0 else b, if late then d + 1 else d)
  {
    var c := m.content;
    if m.opcode == OC_PUT && c.Entry? {
      PutIgnoresCollisions(a, b, d, c.key, c.value);
      PutLate(a, c.key, c.value);
    } else if m.opcode == OC_UPDATE && c.Entry? {
      UpdateIgnoresCollisions(a, b, d, c.key, c.value);
      CoalescedMap.UpdateRefines(a, c.key, c.value);
    }
  }

  lemma PutLate(a: Layout, k: Key, v: Data)
    requires Valid(a) && InBounds(a)
    ensures Put(a, k, v).1 ==> !RejectedBeyondHead(a, k)
    ensures !Put(a, k, v).1 ==> Ahead(Put(a, k, v).0, a, if RejectedBeyondHead(a, k) then 1 else 0)
  {
    var stamp :| Inv(a, stamp);
    FilledBounds(a);
    if a.filled < |a.slots| && !Stored(a.slots, k) {
      PutAbsent(a, k, v);
    } else {
      PutRejected(a, stamp, k, v);
    }
  }

  ghost function CountLate(ts: seq<Layout>, ahead: seq<int>, m: Message): seq<int>
    requires Servable(ts, m) && |ts| == |ahead|
  {
    if m.tableNum < |ts| && LateReject(ts, m, m.tableNum)
    then ahead[m.tableNum := ahead[m.tableNum] + 1] else ahead
  }

  lemma AlignedServable(p: seq<Layout>, b: seq<Layout>, ahead: seq<int>, m: Message)
    requires Servable(p, m) && Aligned(p, b, ahead)
    ensures Servable(b, m)
  {
    forall i | 0 <= i < |b| ensures InBounds(b[i]) {
      assert InBounds(p[i]) && Ahead(p[i], b[i], ahead[i]);
    }
  }

  lemma AlignedAt(p: seq<Layout>, b: seq<Layout>, ahead: seq<int>, i: int, x: Layout, y: Layout, d: int)
    requires Aligned(p, b, ahead) && 0 <= i < |p| && Ahead(x, y, d)
    ensures Aligned(p[i := x], b[i := y], ahead[i := d])
  {
  }

  lemma AlignedSelf(ts: seq<Layout>) returns (ahead: seq<int>)
    ensures Aligned(ts, ts, ahead) && forall i :: 0 <= i < |ts| ==> ahead[i] == 0
  {
    ahead := seq(|ts|, _ => 0);
  }

  lemma HandleAt(b: seq<Layout>, m: Message)
    requires Servable(b, m) && m.tableNum < |b|
    ensures Handle(b, m) == b[m.tableNum := InvokeOn(b[m.tableNum], m).0]
  {
    hide InvokeOn;
  }

  lemma MirrorAligned(p: seq<Layout>, b: seq<Layout>, ahead: seq<int>, m: Message)
    requires AllValid(p) && Servable(p, m) && Aligned(p, b, ahead)
    ensures var (p1, b1) := MirrorStep(p, b, m); Aligned(p1, b1, CountLate(p, ahead, m))
  {
    hide InvokeOn, Ahead, RejectedBeyondHead, Handle, Succeeded;
    AlignedServable(p, b, ahead, m);
    if m.tableNum < |p| {
      var i := m.tableNum;
      AheadOnTable(p[i], b[i], ahead[i], m);
      HandleAt(b, m);
      var (a1, reply) := InvokeOn(p[i], m);
      AlignedAt(p, b, ahead, i, a1, if Succeeded(m, reply) then InvokeOn(b[i], m).0 else b[i],
                if LateReject(p, m, i) then ahead[i] + 1 else ahead[i]);
      assert Succeeded(m, reply) || b[i := b[i]] == b;
      assert LateReject(p, m, i) || ahead[i := ahead[i]] == ahead;
    } else {
      assert Invoke(p, m) == (p, ERROR_REPLY);
      NeverForwarded(m);
    }
  }

  lemma NeverForwarded(m: Message)
    ensures !Succeeded(m, ERROR_REPLY)
  {
  }

  /** The requests one after the other, each forwarded before the next. */
  function Mirror(p: seq<Layout>, b: seq<Layout>, ms: seq<Message>): (seq<Layout>, seq<Layout>)
    decreases |ms|
  {
    if ms == [] || !Servable(p, ms[0]) then (p, b)
    else
      var (p1, b1) := MirrorStep(p, b, ms[0]);
      Mirror(p1, b1, ms[1..])
  }

  /** How many of the requests are puts on table `i` rejected beyond the head of their chain. */
  ghost function LateRejects(ts: seq<Layout>, ms: seq<Message>, i: int): nat
    requires 0 <= i < |ts|
    decreases |ms|
  {
    if ms == [] || !Servable(ts, ms[0]) then 0
    else (if LateReject(ts, ms[0], i) then 1 else 0) + LateRejects(Invoke(ts, ms[0]).0, ms[1..], i)
  }

  lemma RunStep(p: seq<Layout>, b: seq<Layout>, ahead: seq<int>, m: Message, i: int) returns (next: seq<int>)
    requires AllValid(p) && 0 <= m.tableNum && Hashable(m) && Aligned(p, b, ahead) && 0 <= i < |p|
    ensures Servable(p, m)
    ensures var (p1, b1) := MirrorStep(p, b, m);
      p1 == Invoke(p, m).0 && AllValid(p1) && Aligned(p1, b1, next)
    ensures next[i] == ahead[i] + (if LateReject(p, m, i) then 1 else 0)
  {
    ValidServable(p, m);
    InvokeRefines(p, m);
    MirrorAligned(p, b, ahead, m);
    next := CountLate(p, ahead, m);
  }

  lemma {:induction false} RunAligned(p: seq<Layout>, b: seq<Layout>, ahead: seq<int>, ms: seq<Message>, i: int)
    requires AllValid(p) && Requests(ms) && Aligned(p, b, ahead) && 0 <= i < |p|
    ensures var (p1, b1) := Mirror(p, b, ms);
      |p1| == |b1| == |p| && Ahead(p1[i], b1[i], ahead[i] + LateRejects(p, ms, i))
    decreases |ms|
  {
    if ms != [] {
      var next := RunStep(p, b, ahead, ms[0], i);
      var (p1, b1) := MirrorStep(p, b, ms[0]);
      RunAligned(p1, b1, next, ms[1..], i);
    }
  }

  /** Lock-step layout: both servers start from the same sizes; after any requests they agree in every
      slot, link, cursor and count of every table, and the primary's collision counter is ahead by
      exactly the puts rejected beyond the head of their chain, which are not forwarded. */
  lemma LayoutsInLockStep(sizes: seq<CString>, ms: seq<Message>, i: int)
    requires SizesAccepted(sizes) && Requests(ms) && 0 <= i < |sizes|
    ensures var (p, b) := Mirror(CreateAll(sizes), CreateAll(sizes), ms);
      && |p| == |b| == |sizes|
      && p[i].(collisions := b[i].collisions) == b[i]
      && p[i].collisions == b[i].collisions + LateRejects(CreateAll(sizes), ms, i)
  {
    var ts := CreateAll(sizes);
    CreateAllValid(sizes);
    var ahead := AlignedSelf(ts);
    RunAligned(ts, ts, ahead, ms, i);
  }

  /** A mirrored request is what the steps Request, Forward and Answer make of a primary with a live backup. */
  lemma MirrorIsRun(s: State, m: Message)
    requires s.lead.alive && s.lead.primary && s.lead.peerUp && s.peer.alive && s.phase.Idle?
    requires Servable(s.lead.tables, m)
    requires Encodable(Invoke(s.lead.tables, m).1)
    ensures Enabled(s, Request(m)) && Enabled(Take(s, Request(m)), Forward)
    ensures Enabled(Take(Take(s, Request(m)), Forward), Answer)
    ensures var s' := Take(Take(Take(s, Request(m)), Forward), Answer);
      (s'.lead.tables, s'.peer.tables) == MirrorStep(s.lead.tables, s.peer.tables, m)
  {
  }

  // ----- runs without crashes -----

  lemma MirrorStepValid(p: seq<Layout>, b: seq<Layout>, m: Message)
    requires AllValid(p) && 0 <= m.tableNum && Hashable(m)
    ensures Servable(p, m) && AllValid(MirrorStep(p, b, m).0)
  {
    hide Invoke, Effect, Answers;
    InvokeRefines(p, m);
  }

  lemma {:induction false} MirrorSnoc(p: seq<Layout>, b: seq<Layout>, ms: seq<Message>, m: Message)
    requires AllValid(p) && Requests(ms) && 0 <= m.tableNum && Hashable(m)
    ensures var (p1, b1) := Mirror(p, b, ms);
      AllValid(p1) && Servable(p1, m) && Mirror(p, b, ms + [m]) == MirrorStep(p1, b1, m)
    decreases |ms|
  {
    hide MirrorStep, Servable, Hashable;
    if ms == [] {
      MirrorStepValid(p, b, m);
      assert ms + [m] == [m] && [m][1..] == [];
    } else {
      MirrorStepValid(p, b, ms[0]);
      var (p1, b1) := MirrorStep(p, b, ms[0]);
      MirrorSnoc(p1, b1, ms[1..], m);
      assert (ms + [m])[1..] == ms[1..] + [m];
    }
  }

  predicate CrashFree(steps: seq<Step>) {
    forall i :: 0 <= i < |steps| ==> steps[i].Request? || steps[i].Forward? || steps[i].Answer? || steps[i].Drop?
  }

  ghost predicate BothUp(s: State) {
    && s.lead.alive && s.lead.primary && s.lead.peerUp && s.peer.alive
    && s.missing == [] && !s.phase.Transferring? && !s.torn
  }

  /** The servers are where the mirrored requests of the log lead to from tables `ts`; a request that is
      applied and not yet forwarded is at the lead alone. */
  ghost predicate Mirrored(ts: seq<Layout>, s: State) {
    var (p, b) := Mirror(ts, ts, RequestsOf(Settled(s)));
    if s.phase.Applied? then
      && s.log != [] && Servable(p, Last(s.log).request)
      && (s.lead.tables, Last(s.log).reply) == Invoke(p, Last(s.log).request) && s.peer.tables == b
    else (s.lead.tables, s.peer.tables) == (p, b)
  }

  lemma MarkKeepsRequests(log: seq<Record>)
    requires log != []
    ensures RequestsOf(log[|log| - 1 := Last(log).(answered := true)]) == RequestsOf(log)
  {
  }

  lemma ForwardMirrored(ts: seq<Layout>, s: State)
    requires AllValid(ts) && BothUp(s) && Mirrored(ts, s) && Enabled(s, Forward) && Requests(RequestsOf(s.log))
    ensures BothUp(Take(s, Forward)) && Mirrored(ts, Take(s, Forward))
  {
    hide Invoke, Handle, Servable, Hashable;
    var cut, m := RequestsOf(Settled(s)), Last(s.log).request;
    assert RequestsOf(s.log) == cut + [m];
    assert RequestsOf(s.log)[|s.log| - 1] == m;
    assert forall i :: 0 <= i < |cut| ==> cut[i] == RequestsOf(s.log)[i];
    MirrorSnoc(ts, ts, cut, m);
  }

  lemma StepMirrored(ts: seq<Layout>, s: State, step: Step)
    requires AllValid(ts) && BothUp(s) && Mirrored(ts, s) && Enabled(s, step) && Requests(RequestsOf(s.log))
    requires CrashFree([step])
    ensures BothUp(Take(s, step)) && Mirrored(ts, Take(s, step))
  {
    hide Handle, Mirror;
    assert [step][0] == step;
    match step
    case Request(m) =>
      var log := Take(s, step).log;
      assert log[..|log| - 1] == s.log;
    case Forward => ForwardMirrored(ts, s);
    case Answer => MarkKeepsRequests(s.log);
    case Drop =>
  }

  lemma {:induction false} RunMirrored(caps: seq<int>, ts: seq<Layout>, s: State, steps: seq<Step>)
    requires SystemInv(caps, s) && SafeRun(s, steps) && CrashFree(steps)
    requires AllValid(ts) && BothUp(s) && Mirrored(ts, s)
    ensures SystemInv(caps, Exec(s, steps)) && BothUp(Exec(s, steps)) && Mirrored(ts, Exec(s, steps))
    decreases |steps|
  {
    hide Mirrored, Enabled, Take, LeadOk, PeerOk, TornPeer, PhaseOk;
    if steps != [] {
      StepKeeps(caps, s, steps[0]);
      StepMirrored(ts, s, steps[0]);
      RunMirrored(caps, ts, Take(s, steps[0]), steps[1..]);
    }
  }

  /** In every run from startup without crashes, whenever no request is waiting to be forwarded, the backup
      has the primary's slots, links, cursor and `filled` in every table, and the primary's collision counter
      is ahead by exactly the puts of the log that were rejected beyond the head of their chain. */
  lemma RunsInLockStep(caps: seq<int>, s0: State, steps: seq<Step>, i: int)
    requires Start(caps, s0) && s0.peer.alive && SafeRun(s0, steps) && CrashFree(steps) && 0 <= i < |caps|
    ensures var s := Exec(s0, steps);
      && |s0.lead.tables| == |s.lead.tables| == |s.peer.tables| == |caps|
      && (!s.phase.Applied? ==>
            Ahead(s.lead.tables[i], s.peer.tables[i], LateRejects(s0.lead.tables, RequestsOf(s.log), i)))
  {
    hide Mirrored, LateRejects, AllAnswered, Ahead, Outcome, Exec, Start;
    var ts := s0.lead.tables;
    StartInv(caps, s0);
    StartShape(caps, s0);
    NothingMirrored(s0);
    RunMirrored(caps, ts, s0, steps);
    var s := Exec(s0, steps);
    SameNumber(ts, s.lead.tables, caps);
    SameNumber(ts, s.peer.tables, caps);
    if !s.phase.Applied? {
      MirroredAhead(ts, s, i);
    }
  }

  lemma SameNumber(a: seq<Layout>, b: seq<Layout>, caps: seq<int>)
    requires CapsOf(a) == caps && CapsOf(b) == caps
    ensures |a| == |b| == |caps|
  {
    assert |CapsOf(a)| == |a| && |CapsOf(b)| == |b|;
  }

  lemma MirroredAhead(ts: seq<Layout>, s: State, i: int)
    requires AllValid(ts) && Mirrored(ts, s) && !s.phase.Applied? && Requests(RequestsOf(s.log)) && 0 <= i < |ts|
    ensures |s.lead.tables| == |s.peer.tables| == |ts|
    ensures Ahead(s.lead.tables[i], s.peer.tables[i], LateRejects(ts, RequestsOf(s.log), i))
  {
    hide Mirror, LateRejects, Ahead, Aligned, Invoke;
    var ahead := AlignedSelf(ts);
    RunAligned(ts, ts, ahead, RequestsOf(s.log), i);
  }

  lemma NothingMirrored(s: State)
    requires s.log == [] && s.phase.Idle? && s.lead.tables == s.peer.tables
    ensures Mirrored(s.lead.tables, s)
  {
    assert RequestsOf([]) == [];
  }

  // ----- what a client is told about collisions -----

  lemma CountOnTable(t: Layout, m: Message)
    requires Valid(t) && InBounds(t) && Hashable(m)
    ensures var t1 := InvokeOn(t, m).0;
      var late := m.opcode == OC_PUT && m.content.Entry? && RejectedBeyondHead(t, m.content.key);
      t1.collisions - |Sources(t1.slots)| == t.collisions - |Sources(t.slots)| + (if late then 1 else 0)
  {
    if m.opcode == OC_PUT && m.content.Entry? {
      CoalescedRuns.ApplyCollisions(t, CoalescedRuns.PutOp(m.content.key, m.content.value));
    } else if m.opcode == OC_UPDATE && m.content.Entry? {
      CoalescedRuns.ApplyCollisions(t, CoalescedRuns.UpdateOp(m.content.key, m.content.value));
    }
  }

  lemma {:induction false} ServedCollisions(ts: seq<Layout>, ms: seq<Message>, i: int)
    requires AllValid(ts) && Requests(ms) && 0 <= i < |ts|
    ensures var r := Serve(ts, ms).0;
      && |r| == |ts|
      && r[i].collisions - |Sources(r[i].slots)|
           == ts[i].collisions - |Sources(ts[i].slots)| + LateRejects(ts, ms, i)
    decreases |ms|
  {
    if ms != [] {
      InvokeRefines(ts, ms[0]);
      if ms[0].tableNum == i {
        CountOnTable(ts[i], ms[0]);
      }
      ServedCollisions(Invoke(ts, ms[0]).0, ms[1..], i);
    }
  }

  /** After any requests to new tables, a client that asks for the collisions of a table is told its
      number of links plus the number of puts rejected beyond the head of their chain, if a C `int` can hold it. */
  lemma CollisionsReply(sizes: seq<CString>, ms: seq<Message>, m: Message)
    requires SizesAccepted(sizes) && Requests(ms) && m.opcode == 50 && 0 <= m.tableNum < |sizes|
    ensures var ts, n := Serve(CreateAll(sizes), ms).0, m.tableNum;
      && |ts| == |sizes| && Servable(ts, m)
      && var told := |Sources(ts[n].slots)| + LateRejects(CreateAll(sizes), ms, n);
         && Invoke(ts, m).1 == Message(51, n, Result(Wrap32(told)))
         && (told < 0x8000_0000 ==> Invoke(ts, m).1 == Message(51, n, Result(told)))
  {
    hide InvokeOn, LateRejects, AllAnswered, Replay, Serve, Valid, Sources, MapsOf;
    var start := CreateAll(sizes);
    CreateAllValid(sizes);
    ServeRefines(start, ms);
    ServedCollisions(start, ms, m.tableNum);
    var ts, i := Serve(start, ms).0, m.tableNum;
    ValidServable(ts, m);
    CollisionsAsked(ts, m);
    assert ts[i].collisions == |Sources(ts[i].slots)| + LateRejects(start, ms, i);
  }

  lemma CreateAllValid(sizes: seq<CString>)
    requires SizesAccepted(sizes)
    ensures AllValid(CreateAll(sizes))
    ensures forall i :: 0 <= i < |sizes| ==>
      CreateAll(sizes)[i].collisions == 0 && Sources(CreateAll(sizes)[i].slots) == {}
  {
    forall i | 0 <= i < |sizes|
      ensures var t := CreateAll(sizes)[i]; Valid(t) && t.collisions == 0 && Sources(t.slots) == {}
    {
      CoalescedMap.CreateRefines(Atoi(sizes[i]));
    }
  }

  lemma CollisionsAsked(ts: seq<Layout>, m: Message)
    requires Servable(ts, m) && m.opcode == OC_COLLS && m.tableNum < |ts|
    ensures Invoke(ts, m).1 == Reply(m, Result(Wrap32(ts[m.tableNum].collisions)))
  {
  }
}
