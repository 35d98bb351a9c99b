/** Whole runs of one table: refinement of a bounded map, the shape of the chains, the collision
    counter, the cursor's total travel, and what a retried request does. */
module CoalescedRuns {
  import opened Bytes
  import opened Hashing
  import opened Coalesced
  import opened CoalescedInvariant
  import opened CoalescedPut
  import opened CoalescedMap

  datatype Op = PutOp(key: Key, value: Data) | UpdateOp(key: Key, value: Data) | GetOp(key: Key)

  datatype Outcome = Done(ok: bool) | Found(value: Option<Data>)

  function Apply(l: Layout, op: Op): (Layout, Outcome)
    requires InBounds(l)
  {
    match op
    case PutOp(k, v) => (Put(l, k, v).0, Done(Put(l, k, v).1))
    case UpdateOp(k, v) => (Update(l, k, v).0, Done(Update(l, k, v).1))
    case GetOp(k) => (l, Found(Get(l, k)))
  }

  /** The same operation on a map that holds at most `cap` bindings. */
  function MapApply(m: map<Key, Data>, cap: int, op: Op): (map<Key, Data>, Outcome) {
    match op
    case PutOp(k, v) => if |m| < cap && k !in m then (m[k := v], Done(true)) else (m, Done(false))
    case UpdateOp(k, v) => if k in m then (m[k := v], Done(true)) else (m, Done(false))
    case GetOp(k) => (m, Found(if k in m then Some(m[k]) else None))
  }

  /** The table after the operations, or `l` itself once an index would leave the array. */
  function Run(l: Layout, ops: seq<Op>): (Layout, seq<Outcome>)
    decreases |ops|
  {
    if ops == [] || !InBounds(l) then (l, [])
    else
      var (l1, o) := Apply(l, ops[0]);
      var (l2, os) := Run(l1, ops[1..]);
      (l2, [o] + os)
  }

  function MapRun(m: map<Key, Data>, cap: int, ops: seq<Op>): (map<Key, Data>, seq<Outcome>)
    decreases |ops|
  {
    if ops == [] then (m, [])
    else
      var (m1, o) := MapApply(m, cap, ops[0]);
      var (m2, os) := MapRun(m1, cap, ops[1..]);
      (m2, [o] + os)
  }

  lemma ApplyRefines(l: Layout, op: Op)
    requires Valid(l)
    ensures Valid(Apply(l, op).0) && Capacity(Apply(l, op).0) == Capacity(l)
    ensures (Contents(Apply(l, op).0), Apply(l, op).1) == MapApply(Contents(l), Capacity(l), op)
  {
    match op
    case PutOp(k, v) => PutRefines(l, k, v);
    case UpdateOp(k, v) => UpdateRefines(l, k, v);
    case GetOp(k) => GetRefines(l, k);
  }

  /** Every run of a valid table gives the outcomes and the contents of the same run of a bounded map. */
  lemma {:induction false} RunRefines(l: Layout, ops: seq<Op>)
    requires Valid(l)
    ensures Valid(Run(l, ops).0) && Capacity(Run(l, ops).0) == Capacity(l)
    ensures (Contents(Run(l, ops).0), Run(l, ops).1) == MapRun(Contents(l), Capacity(l), ops)
    decreases |ops|
  {
    if ops != [] {
      ApplyRefines(l, ops[0]);
      RunRefines(Apply(l, ops[0]).0, ops[1..]);
    }
  }

  /** The same from `table_create`. */
  lemma TableIsBoundedMap(n: int, ops: seq<Op>)
    requires n > 0
    ensures Valid(Run(Create(n), ops).0)
    ensures (Contents(Run(Create(n), ops).0), Run(Create(n), ops).1) == MapRun(map[], n, ops)
  {
    CreateRefines(n);
    RunRefines(Create(n), ops);
  }

  // ----- chains -----

  /** Slot `j` lies on the chain that starts at `h`. */
  ghost predicate OnChainOf(l: Layout, h: int, j: int) {
    j in Chain(l.slots, h, |l.slots|)
  }

  /** Every slot of a chain but the first is linked from another slot of it. */
  lemma {:induction false} Predecessor(slots: seq<Slot>, h: int, f: nat, j: int) returns (i: int)
    requires j in Chain(slots, h, f) && j != h
    ensures i in Chain(slots, h, f) && UsedAt(slots, i) && slots[i].next == j
    decreases f
  {
    assert j in Chain(slots, slots[h].next, f - 1);
    if slots[h].next == j {
      i := h;
    } else {
      i := Predecessor(slots, slots[h].next, f - 1, j);
    }
  }

  /** A chain goes on where a slot of it links to. */
  lemma {:induction false} Successor(l: Layout, stamp: seq<int>, h: int, i: int)
    requires Inv(l, stamp) && UsedAt(l.slots, h)
    requires OnChainOf(l, h, i) && l.slots[i].next != NULL
    ensures OnChainOf(l, h, l.slots[i].next)
    decreases l.filled - stamp[h]
  {
    FilledBounds(l);
    Unfold(l.slots, stamp, l.filled, h);
    assert l.slots[h].next != NULL ==> UsedAt(l.slots, l.slots[h].next);
    if i == h {
      assert UsedAt(l.slots, l.slots[h].next);
    } else {
      Successor(l, stamp, l.slots[h].next, i);
    }
  }

  /** The chains that start at the heads cover the occupied slots... */
  lemma {:induction false} HeadOf(l: Layout, stamp: seq<int>, j: int) returns (h: int)
    requires Inv(l, stamp) && UsedAt(l.slots, j)
    ensures HomeAt(l.slots, h) && OnChainOf(l, h, j)
    decreases stamp[j]
  {
    if HomeAt(l.slots, j) {
      h := j;
    } else {
      assert Target(l.slots, j);
      var i :| UsedAt(l.slots, i) && l.slots[i].next == j;
      h := HeadOf(l, stamp, i);
      Successor(l, stamp, h, i);
    }
  }

  /** ...and no slot is on two of them. */
  lemma {:induction false} HeadUnique(l: Layout, stamp: seq<int>, a: int, b: int, j: int)
    requires Inv(l, stamp) && HomeAt(l.slots, a) && HomeAt(l.slots, b)
    requires OnChainOf(l, a, j) && OnChainOf(l, b, j)
    ensures a == b
    decreases stamp[j]
  {
    assert !Target(l.slots, a) && !Target(l.slots, b);
    if j != a && j != b {
      var i := Predecessor(l.slots, a, |l.slots|, j);
      var i' := Predecessor(l.slots, b, |l.slots|, j);
      assert i == i';
      HeadUnique(l, stamp, a, b, i);
    } else if j != b {
      var i := Predecessor(l.slots, b, |l.slots|, j);
    } else if j != a {
      var i := Predecessor(l.slots, a, |l.slots|, j);
    }
  }

  /** In every valid table the chains of the head slots partition the occupied slots: each occupied
      slot is on the chain of exactly one head. */
  lemma ChainsPartition(l: Layout, j: int)
    requires Valid(l) && UsedAt(l.slots, j)
    ensures exists h :: HomeAt(l.slots, h) && OnChainOf(l, h, j)
    ensures forall a, b ::
      HomeAt(l.slots, a) && HomeAt(l.slots, b) && OnChainOf(l, a, j) && OnChainOf(l, b, j) ==> a == b
  {
    var stamp :| Inv(l, stamp);
    var h := HeadOf(l, stamp, j);
    forall a, b | HomeAt(l.slots, a) && HomeAt(l.slots, b) && OnChainOf(l, a, j) && OnChainOf(l, b, j)
      ensures a == b
    {
      HeadUnique(l, stamp, a, b, j);
    }
  }

  /** Each stored key is on the chain of its home slot, even where a key of another hash holds that
      slot, and `get_entry` finds the one slot that stores it. */
  lemma EveryKeyReachable(l: Layout, j: int)
    requires Valid(l) && UsedAt(l.slots, j)
    ensures OnChainOf(l, Home(l.slots[j].key, |l.slots|), j)
    ensures Find(l.slots, l.slots[j].key) == j
  {
    var stamp :| Inv(l, stamp);
    assert OnOwnChain(l.slots, j);
    FindComplete(l, stamp, j);
  }

  // ----- collisions -----

  /** The distinct home slots of the stored keys. */
  function Homes(slots: seq<Slot>): set<int> {
    set i | 0 <= i < |slots| && UsedAt(slots, i) :: Home(slots[i].key, |slots|)
  }

  lemma SubsetSize(a: set<int>, b: set<int>)
    requires a <= b
    ensures |a| <= |b|
  {
    assert b == a + (b - a);
  }

  /** There are fewer links than keys, and at least as many as keys that share a home slot. */
  lemma LinkBounds(l: Layout)
    requires Valid(l) && l.filled > 0
    ensures l.filled - |Homes(l.slots)| <= |Sources(l.slots)| <= l.filled - 1
  {
    assert Heads(l.slots) <= Homes(l.slots) by {
      forall i | i in Heads(l.slots) ensures i in Homes(l.slots) {
        assert HomeAt(l.slots, i);
      }
    }
    SubsetSize(Heads(l.slots), Homes(l.slots));
  }

  /** How many of the operations are puts rejected only after `collisions` was incremented. */
  ghost function LateRejections(l: Layout, ops: seq<Op>): int
    decreases |ops|
  {
    if ops == [] || !InBounds(l) then 0
    else
      (if ops[0].PutOp? && RejectedBeyondHead(l, ops[0].key) then 1 else 0)
      + LateRejections(Apply(l, ops[0]).0, ops[1..])
  }

  lemma PutCollisions(l: Layout, k: Key, v: Data)
    requires Valid(l)
    ensures Put(l, k, v).0.collisions - l.collisions
         == |Sources(Put(l, k, v).0.slots)| - |Sources(l.slots)| + (if RejectedBeyondHead(l, k) then 1 else 0)
  {
    var stamp :| Inv(l, stamp);
    FilledBounds(l);
    if l.filled < |l.slots| && !Stored(l.slots, k) {
      PutAbsent(l, k, v);
      CanPlace(l, stamp, k);
      GrowSources(l.slots, LinkFrom(l, k), Placed(l, k), k, v);
    } else {
      PutRejected(l, stamp, k, v);
    }
  }

  lemma ApplyCollisions(l: Layout, op: Op)
    requires Valid(l)
    ensures Apply(l, op).0.collisions - |Sources(Apply(l, op).0.slots)|
         == l.collisions - |Sources(l.slots)| + (if op.PutOp? && RejectedBeyondHead(l, op.key) then 1 else 0)
  {
    match op
    case PutOp(k, v) => PutCollisions(l, k, v);
    case UpdateOp(k, v) =>
      UpdateRefines(l, k, v);
      assert Sources(Update(l, k, v).0.slots) == Sources(l.slots);
    case GetOp(k) =>
  }

  lemma {:induction false} RunCollisions(l: Layout, ops: seq<Op>)
    requires Valid(l)
    ensures Run(l, ops).0.collisions - |Sources(Run(l, ops).0.slots)|
         == l.collisions - |Sources(l.slots)| + LateRejections(l, ops)
    decreases |ops|
  {
    if ops != [] {
      ApplyRefines(l, ops[0]);
      ApplyCollisions(l, ops[0]);
      RunCollisions(Apply(l, ops[0]).0, ops[1..]);
    }
  }

  /** `collisions` counts the links, plus one for each put rejected behind the head of its chain. */
  lemma CollisionAccounting(n: int, ops: seq<Op>)
    requires n > 0
    ensures Run(Create(n), ops).0.collisions
         == |Sources(Run(Create(n), ops).0.slots)| + LateRejections(Create(n), ops)
  {
    CreateRefines(n);
    RunCollisions(Create(n), ops);
    assert Sources(Create(n).slots) == {};
  }

  // ----- the cursor -----

  /** How often the loop of `atualize_next` decrements, started at `c`. */
  function DescendSteps(slots: seq<Slot>, c: int): nat
    decreases c
  {
    if c >= 0 && UsedAt(slots, c) then 1 + DescendSteps(slots, c - 1) else 0
  }

  /** The decrements one operation causes. */
  function Decrements(l: Layout, op: Op): nat
    requires InBounds(l)
  {
    if op.PutOp? && Put(l, op.key, op.value).1 && l.filled + 1 < |l.slots|
    then DescendSteps(Put(l, op.key, op.value).0.slots, l.cursor) else 0
  }

  function TotalDecrements(l: Layout, ops: seq<Op>): nat
    decreases |ops|
  {
    if ops == [] || !InBounds(l) then 0
    else Decrements(l, ops[0]) + TotalDecrements(Apply(l, ops[0]).0, ops[1..])
  }

  lemma {:induction false} DescendStepsCount(slots: seq<Slot>, c: int)
    ensures Descend(slots, c) == c - DescendSteps(slots, c)
    decreases c
  {
    if c >= 0 && UsedAt(slots, c) {
      DescendStepsCount(slots, c - 1);
    }
  }

  lemma DecrementsMoveCursor(l: Layout, op: Op)
    requires Valid(l)
    ensures Apply(l, op).0.cursor == l.cursor - Decrements(l, op)
  {
    if op.PutOp? {
      PutRefines(l, op.key, op.value);
      var stamp :| Inv(l, stamp);
      FilledBounds(l);
      if l.filled < |l.slots| && !Stored(l.slots, op.key) {
        PutAbsent(l, op.key, op.value);
        DescendStepsCount(Put(l, op.key, op.value).0.slots, l.cursor);
      } else {
        PutRejected(l, stamp, op.key, op.value);
      }
    } else if op.UpdateOp? {
      UpdateRefines(l, op.key, op.value);
    }
  }

  lemma {:induction false} RunMovesCursor(l: Layout, ops: seq<Op>)
    requires Valid(l)
    ensures Run(l, ops).0.cursor == l.cursor - TotalDecrements(l, ops)
    decreases |ops|
  {
    if ops != [] {
      ApplyRefines(l, ops[0]);
      DecrementsMoveCursor(l, ops[0]);
      RunMovesCursor(Apply(l, ops[0]).0, ops[1..]);
    }
  }

  /** Over a whole run `atualize_next` decrements the cursor at most `n - 1` times, and the cursor is
      exactly the highest free slot whenever there is one. */
  lemma CursorAmortised(n: int, ops: seq<Op>)
    requires n > 0
    ensures TotalDecrements(Create(n), ops) <= n - 1
    ensures var l := Run(Create(n), ops).0; l.filled < n ==> HighestFree(l.slots, l.cursor)
  {
    CreateRefines(n);
    RunRefines(Create(n), ops);
    RunMovesCursor(Create(n), ops);
  }

  // ----- retries -----

  lemma {:induction false} MapRunKeeps(m: map<Key, Data>, cap: int, ops: seq<Op>)
    requires |m| <= cap
    ensures m.Keys <= MapRun(m, cap, ops).0.Keys
    ensures |m| <= |MapRun(m, cap, ops).0| <= cap
    decreases |ops|
  {
    if ops != [] {
      MapRunKeeps(MapApply(m, cap, ops[0]).0, cap, ops[1..]);
    }
  }

  /** Delivering a put again, after any operations in between, leaves the contents as they are:
      keys are never removed, and a full table stays full. */
  lemma PutRetrySafe(l: Layout, k: Key, v: Data, between: seq<Op>)
    requires Valid(l)
    ensures var l1 := Run(Put(l, k, v).0, between).0;
      Valid(l1) && !Put(l1, k, v).1 && Contents(Put(l1, k, v).0) == Contents(l1)
  {
    PutRefines(l, k, v);
    var l0 := Put(l, k, v).0;
    SizeRefines(l);
    SizeRefines(l0);
    RunRefines(l0, between);
    MapRunKeeps(Contents(l0), Capacity(l0), between);
    PutRefines(Run(l0, between).0, k, v);
  }

  /** The last value the operations update `k` to, if they do. */
  function LastUpdate(ops: seq<Op>, k: Key): Option<Data> {
    if ops == [] then None
    else
      var later := LastUpdate(ops[1..], k);
      if later.Some? then later
      else if ops[0].UpdateOp? && ops[0].key == k then Some(ops[0].value)
      else None
  }

  lemma {:induction false} MapRunBinding(m: map<Key, Data>, cap: int, ops: seq<Op>, k: Key)
    requires k in m
    ensures k in MapRun(m, cap, ops).0
    ensures MapRun(m, cap, ops).0[k] == (match LastUpdate(ops, k) case Some(w) => w case None => m[k])
    decreases |ops|
  {
    if ops != [] {
      MapRunBinding(MapApply(m, cap, ops[0]).0, cap, ops[1..], k);
    }
  }

  /** Delivering an update again changes nothing exactly when the last update of that key in between,
      if there is one, wrote the same value. */
  lemma UpdateRetryIff(l: Layout, k: Key, v: Data, between: seq<Op>)
    requires Valid(l) && Update(l, k, v).1
    ensures var l1 := Run(Update(l, k, v).0, between).0;
      && Valid(l1)
      && (Contents(Update(l1, k, v).0) == Contents(l1) <==> LastUpdate(between, k) in {None, Some(v)})
  {
    UpdateRefines(l, k, v);
    var l0 := Update(l, k, v).0;
    RunRefines(l0, between);
    MapRunBinding(Contents(l0), Capacity(l0), between, k);
    var l1 := Run(l0, between).0;
    UpdateRefines(l1, k, v);
    assert Contents(Update(l1, k, v).0)[k] == v;
  }
}
