/** What a surviving server sends to one that says HELLO, and what the receiver makes of it. */
module StateTransfer {
  import opened Bytes
  import opened Hashing
  import opened Messages
  import opened Coalesced
  import opened CoalescedInvariant
  import opened CoalescedMap
  import opened Dispatch
  import opened TableSizes

  // ----- table sizes -----

  predicate SizesAccepted(sizes: seq<CString>) {
    forall i :: 0 <= i < |sizes| ==> Atoi(sizes[i]) > 0
  }

  /** `table_skel_init`; a size that is not positive makes it fail. */
  function CreateAll(sizes: seq<CString>): (ts: seq<Layout>)
    requires SizesAccepted(sizes)
    ensures |ts| == |sizes| && forall i :: 0 <= i < |ts| ==> ts[i] == Create(Atoi(sizes[i]))
  {
    if sizes == [] then [] else [Create(Atoi(sizes[0]))] + CreateAll(sizes[1..])
  }

  /** The sizes a server is started with, written as decimal numbers. */
  function DecimalTexts(ns: seq<nat>): (sizes: seq<CString>)
    ensures |sizes| == |ns| && forall i :: 0 <= i < |ns| ==> sizes[i] == Decimal(ns[i])
  {
    if ns == [] then [] else [Decimal(ns[0])] + DecimalTexts(ns[1..])
  }

  /** Written as decimal numbers, sizes are accepted if and only if all are positive, and make tables of
      exactly those capacities. */
  lemma TablesOfSizes(ns: seq<nat>)
    ensures SizesAccepted(DecimalTexts(ns)) <==> forall i :: 0 <= i < |ns| ==> ns[i] > 0
    ensures SizesAccepted(DecimalTexts(ns)) ==>
      var ts := CreateAll(DecimalTexts(ns));
      |ts| == |ns| && forall i :: 0 <= i < |ns| ==> Capacity(ts[i]) == ns[i] && Valid(ts[i]) && Contents(ts[i]) == map[]
  {
    hide Atoi, Decimal;
    var sizes := DecimalTexts(ns);
    forall i | 0 <= i < |ns| ensures Atoi(sizes[i]) == ns[i] {
      AtoiDecimal(ns[i]);
    }
    if SizesAccepted(sizes) {
      forall i | 0 <= i < |ns|
        ensures var t := CreateAll(sizes)[i]; Capacity(t) == ns[i] && Valid(t) && Contents(t) == map[]
      {
        CreateRefines(ns[i]);
      }
    }
  }

  // ----- the messages of a transfer -----

  function SizesMessage(sizes: seq<CString>): Message {
    Message(OC_SZ_TABLES, -1, KeyTexts(sizes))
  }

  const ACK_MESSAGE: Message := Message(OC_ACK, -1, Result(0))

  /** `rtables_put` */
  function PutMessage(i: Short, p: Pair): Message {
    Message(OC_PUT, i, Entry(p.key, p.value))
  }

  function TablePuts(i: Short, ps: seq<Pair>): (ms: seq<Message>)
    ensures |ms| == |ps| && forall j :: 0 <= j < |ms| ==> ms[j] == PutMessage(i, ps[j])
  {
    if ps == [] then [] else [PutMessage(i, ps[0])] + TablePuts(i, ps[1..])
  }

  /** One put for each stored entry of tables `i`, `i + 1`, and so on. */
  function AllPuts(ts: seq<Layout>, i: nat): seq<Message>
    requires i <= |ts| <= 0x7FFF
    decreases |ts| - i
  {
    if i == |ts| then [] else TablePuts(i, PairList(ts[i])) + AllPuts(ts, i + 1)
  }

  function Transfer(sizes: seq<CString>, ts: seq<Layout>): seq<Message>
    requires |ts| <= 0x7FFF
  {
    [SizesMessage(sizes)] + AllPuts(ts, 0) + [ACK_MESSAGE]
  }

  // ----- the receiver -----

  /** One message at the receiving server. */
  function Handle(ts: seq<Layout>, m: Message): seq<Layout> {
    if m.tableNum == -1 then
      if m.opcode == OC_SZ_TABLES && m.content.KeyTexts? && SizesAccepted(m.content.texts)
      then CreateAll(m.content.texts) else ts
    else if Servable(ts, m) then Invoke(ts, m).0
    else ts
  }

  function HandleAll(ts: seq<Layout>, ms: seq<Message>): seq<Layout>
    decreases |ms|
  {
    if ms == [] then ts else HandleAll(Handle(ts, ms[0]), ms[1..])
  }

  lemma {:induction false} HandleAppend(ts: seq<Layout>, a: seq<Message>, b: seq<Message>)
    ensures HandleAll(ts, a + b) == HandleAll(HandleAll(ts, a), b)
    decreases |a|
  {
    if a == [] {
      assert a + b == b;
    } else {
      assert (a + b)[1..] == a[1..] + b;
      HandleAppend(Handle(ts, a[0]), a[1..], b);
    }
  }

  lemma HandleValid(ts: seq<Layout>, m: Message)
    requires AllValid(ts)
    ensures AllValid(Handle(ts, m))
  {
    if m.tableNum == -1 {
      if m.content.KeyTexts? && SizesAccepted(m.content.texts) {
        var sizes := m.content.texts;
        forall i | 0 <= i < |sizes| ensures Valid(CreateAll(sizes)[i]) {
          CreateRefines(Atoi(sizes[i]));
        }
      }
    } else if Servable(ts, m) {
      InvokeRefines(ts, m);
    }
  }

  // ----- one table -----

  function ReplayPairs(t: Layout, ps: seq<Pair>): Layout
    decreases |ps|
  {
    if ps == [] || !InBounds(t) then t else ReplayPairs(Put(t, ps[0].key, ps[0].value).0, ps[1..])
  }

  /** Every put of the replay succeeds. */
  predicate AllStored(t: Layout, ps: seq<Pair>)
    decreases |ps|
  {
    ps == []
    || (InBounds(t) && Put(t, ps[0].key, ps[0].value).1 && AllStored(Put(t, ps[0].key, ps[0].value).0, ps[1..]))
  }

  function PairsMap(ps: seq<Pair>): Store {
    if ps == [] then map[] else PairsMap(ps[1..])[ps[0].key := ps[0].value]
  }

  lemma {:induction false} PairsMapBelow(slots: seq<Slot>, j: int)
    requires 0 <= j <= |slots|
    ensures PairsMap(PairsBelow(slots, j)) == MapBelow(slots, j)
  {
    if j > 0 {
      PairsMapBelow(slots, j - 1);
      assert slots[j - 1].Used? ==> PairsBelow(slots, j)[1..] == PairsBelow(slots, j - 1);
      assert slots[j - 1].Free? ==> PairsBelow(slots, j) == PairsBelow(slots, j - 1);
    }
  }

  ghost predicate DistinctPairs(ps: seq<Pair>) {
    forall i, j :: 0 <= i < j < |ps| ==> ps[i].key != ps[j].key
  }

  lemma {:induction false} PairsMapKeys(ps: seq<Pair>, k: Key)
    ensures k in PairsMap(ps) <==> exists i :: 0 <= i < |ps| && ps[i].key == k
  {
    if ps != [] {
      PairsMapKeys(ps[1..], k);
      assert forall i :: 1 <= i < |ps| ==> ps[i] == ps[1..][i - 1];
    }
  }

  /** The entries have keys of their own, none of them bound, and the table has room for them. */
  ghost predicate Fits(t: Layout, ps: seq<Pair>) {
    && DistinctPairs(ps)
    && (forall i :: 0 <= i < |ps| ==> ps[i].key !in Contents(t))
    && |Contents(t)| + |ps| <= Capacity(t)
  }

  lemma FitsStep(t: Layout, ps: seq<Pair>)
    requires Valid(t) && ps != [] && Fits(t, ps)
    ensures InBounds(t)
    ensures var (t1, ok) := Put(t, ps[0].key, ps[0].value);
      && ok && Valid(t1) && Capacity(t1) == Capacity(t)
      && Contents(t1) == Contents(t)[ps[0].key := ps[0].value] && Fits(t1, ps[1..])
  {
    ValidInBounds(t);
    PutRefines(t, ps[0].key, ps[0].value);
    assert forall i :: 0 <= i < |ps[1..]| ==> ps[1..][i] == ps[i + 1];
  }

  lemma BindBefore(store: Store, k: Key, v: Data, later: Store)
    requires k !in later
    ensures store[k := v] + later == store + later[k := v]
  {
  }

  lemma PairsMapFirst(store: Store, ps: seq<Pair>)
    requires ps != [] && DistinctPairs(ps)
    ensures store[ps[0].key := ps[0].value] + PairsMap(ps[1..]) == store + PairsMap(ps)
  {
    PairsMapKeys(ps[1..], ps[0].key);
    assert forall i :: 0 <= i < |ps[1..]| ==> ps[1..][i] == ps[i + 1];
    BindBefore(store, ps[0].key, ps[0].value, PairsMap(ps[1..]));
  }

  /** Entries that fit into a table, replayed, all go in and add exactly their bindings. */
  lemma {:induction false} ReplayPairsRefines(t: Layout, ps: seq<Pair>)
    requires Valid(t) && Fits(t, ps)
    ensures AllStored(t, ps)
    ensures Valid(ReplayPairs(t, ps)) && Capacity(ReplayPairs(t, ps)) == Capacity(t)
    ensures Contents(ReplayPairs(t, ps)) == Contents(t) + PairsMap(ps)
    decreases |ps|
  {
    if ps == [] {
      assert Contents(t) + map[] == Contents(t);
    } else {
      FitsStep(t, ps);
      ReplayPairsRefines(Put(t, ps[0].key, ps[0].value).0, ps[1..]);
      PairsMapFirst(Contents(t), ps);
    }
  }

  lemma ReverseDistinct(ks: seq<Key>, ps: seq<Pair>)
    requires NoRepeat(ks) && KeysOf(ps) == Reverse(ks)
    ensures DistinctPairs(ps)
  {
    var rs := Reverse(ks);
    forall i, j | 0 <= i < j < |ps| ensures ps[i].key != ps[j].key {
      assert ps[i].key == KeysOf(ps)[i] == rs[i] == ks[|ks| - 1 - i];
      assert ps[j].key == KeysOf(ps)[j] == rs[j] == ks[|ks| - 1 - j];
    }
  }

  lemma PairListDistinct(t: Layout)
    requires Valid(t)
    ensures DistinctPairs(PairList(t)) && |PairList(t)| <= Capacity(t)
  {
    EnumerationRefines(t);
    SizeRefines(t);
    ReverseDistinct(KeyList(t), PairList(t));
  }

  /** The table the receiver of a transfer ends with. */
  function Rebuilt(t: Layout): Layout
    requires Capacity(t) > 0
  {
    ReplayPairs(Create(Capacity(t)), PairList(t))
  }

  /** Replaying a table's entries into a new table of its capacity stores them all, and gives its contents. */
  lemma ReplayTable(t: Layout)
    requires Valid(t)
    ensures Capacity(t) > 0 && AllStored(Create(Capacity(t)), PairList(t))
    ensures Valid(Rebuilt(t)) && Capacity(Rebuilt(t)) == Capacity(t) && Contents(Rebuilt(t)) == Contents(t)
  {
    ValidInBounds(t);
    CreateRefines(Capacity(t));
    PairListDistinct(t);
    ReplayPairsRefines(Create(Capacity(t)), PairList(t));
    PairsMapBelow(t.slots, |t.slots|);
    assert map[] + Contents(t) == Contents(t);
  }

  // ----- all tables -----

  lemma HandlePut(ts: seq<Layout>, i: Short, p: Pair)
    requires AllValid(ts) && 0 <= i < |ts|
    ensures InBounds(ts[i]) && Handle(ts, PutMessage(i, p)) == ts[i := Put(ts[i], p.key, p.value).0]
    ensures AllValid(Handle(ts, PutMessage(i, p)))
  {
    ValidServable(ts, PutMessage(i, p));
    PutRefines(ts[i], p.key, p.value);
  }

  lemma {:induction false} HandlePuts(ts: seq<Layout>, i: Short, ps: seq<Pair>)
    requires AllValid(ts) && 0 <= i < |ts|
    ensures HandleAll(ts, TablePuts(i, ps)) == ts[i := ReplayPairs(ts[i], ps)]
    decreases |ps|
  {
    if ps == [] {
      assert ts[i := ts[i]] == ts;
    } else {
      HandlePut(ts, i, ps[0]);
      HandlePuts(Handle(ts, PutMessage(i, ps[0])), i, ps[1..]);
    }
  }

  /** Table `j` of the receiver is the replay of table `j` of the sender. */
  predicate Replayed(a: Layout, b: Layout) {
    Capacity(b) > 0 && a == Rebuilt(b)
  }

  predicate New(a: Layout, b: Layout) {
    Capacity(b) > 0 && a == Create(Capacity(b))
  }

  /** From `i` on the receiver's tables are new, before `i` they are the replays of the sender's. */
  ghost predicate Halfway(cur: seq<Layout>, ts: seq<Layout>, i: nat) {
    && |cur| == |ts|
    && forall j :: 0 <= j < |ts| ==> if j < i then Replayed(cur[j], ts[j]) else New(cur[j], ts[j])
  }

  lemma HalfwayValid(cur: seq<Layout>, ts: seq<Layout>, i: nat)
    requires AllValid(ts) && Halfway(cur, ts, i)
    ensures AllValid(cur)
  {
    forall j | 0 <= j < |cur| ensures Valid(cur[j]) {
      ReplayTable(ts[j]);
      CreateRefines(Capacity(ts[j]));
    }
  }

  lemma HalfwayStep(cur: seq<Layout>, ts: seq<Layout>, i: nat)
    requires AllValid(ts) && i < |ts| <= 0x7FFF && Halfway(cur, ts, i)
    ensures AllValid(cur)
    ensures Halfway(HandleAll(cur, TablePuts(i, PairList(ts[i]))), ts, i + 1)
  {
    HalfwayValid(cur, ts, i);
    HandlePuts(cur, i, PairList(ts[i]));
    ReplayTable(ts[i]);
  }

  lemma HandleNothing(cur: seq<Layout>, ts: seq<Layout>)
    requires |ts| <= 0x7FFF
    ensures HandleAll(cur, AllPuts(ts, |ts|)) == cur
  {
  }

  lemma HandleTable(cur: seq<Layout>, ts: seq<Layout>, i: nat)
    requires i < |ts| <= 0x7FFF
    ensures HandleAll(cur, AllPuts(ts, i))
         == HandleAll(HandleAll(cur, TablePuts(i, PairList(ts[i]))), AllPuts(ts, i + 1))
  {
    HandleAppend(cur, TablePuts(i, PairList(ts[i])), AllPuts(ts, i + 1));
  }

  lemma {:induction false} HandleAllPuts(cur: seq<Layout>, ts: seq<Layout>, i: nat)
    requires AllValid(ts) && i <= |ts| <= 0x7FFF && Halfway(cur, ts, i)
    ensures Halfway(HandleAll(cur, AllPuts(ts, i)), ts, |ts|)
    decreases |ts| - i
  {
    hide Handle, HandleAll, Halfway, AllPuts, TablePuts, PairList;
    if i == |ts| {
      HandleNothing(cur, ts);
    } else {
      HandleTable(cur, ts, i);
      HalfwayStep(cur, ts, i);
      HandleAllPuts(HandleAll(cur, TablePuts(i, PairList(ts[i]))), ts, i + 1);
    }
  }

  /** The sizes describe the tables. */
  ghost predicate SizesDescribe(sizes: seq<CString>, ts: seq<Layout>) {
    && |sizes| == |ts| <= 0x7FFF
    && forall i :: 0 <= i < |ts| ==> Atoi(sizes[i]) == Capacity(ts[i])
  }

  lemma TransferHandled(held: seq<Layout>, sizes: seq<CString>, ts: seq<Layout>)
    requires AllValid(ts) && SizesDescribe(sizes, ts)
    ensures SizesAccepted(sizes) && Halfway(CreateAll(sizes), ts, 0)
    ensures HandleAll(held, Transfer(sizes, ts)) == HandleAll(CreateAll(sizes), AllPuts(ts, 0))
  {
    hide AllPuts;
    forall i | 0 <= i < |ts| ensures Capacity(ts[i]) > 0 {
      ValidInBounds(ts[i]);
    }
    HandleAppend(held, [SizesMessage(sizes)], AllPuts(ts, 0));
    HandleAppend(held, [SizesMessage(sizes)] + AllPuts(ts, 0), [ACK_MESSAGE]);
    SingleHandle(held, SizesMessage(sizes));
    SingleHandle(HandleAll(CreateAll(sizes), AllPuts(ts, 0)), ACK_MESSAGE);
  }

  /** A receiver that handles the whole transfer, whatever it held before, ends with the replay of each of the
      sender's tables. */
  lemma TransferRebuilds(held: seq<Layout>, sizes: seq<CString>, ts: seq<Layout>)
    requires AllValid(ts) && SizesDescribe(sizes, ts)
    ensures var r := HandleAll(held, Transfer(sizes, ts));
      |r| == |ts| && forall i :: 0 <= i < |ts| ==> Replayed(r[i], ts[i])
  {
    hide HandleAll, Transfer, AllPuts, Rebuilt;
    TransferHandled(held, sizes, ts);
    HandleAllPuts(CreateAll(sizes), ts, 0);
  }

  /** State transfer preserves meaning: the receiver ends with tables of the same capacities and the same
      contents. */
  lemma TransferPreserves(held: seq<Layout>, sizes: seq<CString>, ts: seq<Layout>)
    requires AllValid(ts) && SizesDescribe(sizes, ts)
    ensures var r := HandleAll(held, Transfer(sizes, ts));
      AllValid(r) && CapsOf(r) == CapsOf(ts) && MapsOf(r) == MapsOf(ts)
  {
    hide HandleAll, Transfer, Rebuilt;
    TransferRebuilds(held, sizes, ts);
    var r := HandleAll(held, Transfer(sizes, ts));
    forall i | 0 <= i < |ts|
      ensures Valid(r[i]) && Capacity(r[i]) == Capacity(ts[i]) && Contents(r[i]) == Contents(ts[i])
    {
      ReplayTable(ts[i]);
    }
  }

  lemma SingleHandle(ts: seq<Layout>, m: Message)
    ensures HandleAll(ts, [m]) == Handle(ts, m)
  {
    assert HandleAll(ts, [m]) == HandleAll(Handle(ts, m), []);
  }

  function TotalFilled(ts: seq<Layout>, i: nat): int
    requires i <= |ts|
    decreases |ts| - i
  {
    if i == |ts| then 0 else ts[i].filled + TotalFilled(ts, i + 1)
  }

  lemma {:induction false} AllPutsCount(ts: seq<Layout>, i: nat)
    requires AllValid(ts) && i <= |ts| <= 0x7FFF
    ensures |AllPuts(ts, i)| == TotalFilled(ts, i)
    decreases |ts| - i
  {
    if i < |ts| {
      EnumerationRefines(ts[i]);
      AllPutsCount(ts, i + 1);
    }
  }

  /** The recovery loop sees the sizes, one put for each stored entry, and the ACK last and only last. */
  lemma TransferLength(sizes: seq<CString>, ts: seq<Layout>)
    requires AllValid(ts) && |ts| <= 0x7FFF
    ensures |Transfer(sizes, ts)| == 1 + TotalFilled(ts, 0) + 1
    ensures forall i :: 0 <= i < |Transfer(sizes, ts)| ==>
      (Transfer(sizes, ts)[i].opcode == OC_ACK <==> i == |Transfer(sizes, ts)| - 1)
  {
    AllPutsCount(ts, 0);
    AllPutsArePuts(ts, 0);
  }

  lemma {:induction false} AllPutsArePuts(ts: seq<Layout>, i: nat)
    requires i <= |ts| <= 0x7FFF
    ensures forall j :: 0 <= j < |AllPuts(ts, i)| ==>
      var m := AllPuts(ts, i)[j];
      m.opcode == OC_PUT && 0 <= m.tableNum < |ts| && m.content.Entry? && Placeable(m.content.key)
    decreases |ts| - i
  {
    if i < |ts| {
      AllPutsArePuts(ts, i + 1);
    }
  }

  // ----- what a transfer does not preserve -----

  const KEY_A: Key := [3]
  const KEY_B: Key := [6]
  const KEY_C: Key := [5]
  const ONE: Data := [0]

  lemma WitnessHomes()
    ensures Home(KEY_A, 3) == 0 && Home(KEY_B, 3) == 0 && Home(KEY_C, 3) == 2
  {
    assert KEY_A[1..] == [] && KEY_B[1..] == [] && KEY_C[1..] == [];
  }

  /** A put into a free home slot below the cursor or at it. */
  lemma PutAtHome(l: Layout, k: Key, v: Data, h: int)
    requires InBounds(l) && h == Home(k, |l.slots|) && l.slots[h].Free? && l.filled != |l.slots|
    ensures Put(l, k, v) == (Settle(l, h, k, v), true)
  {
  }

  /** A put that overflows from a home slot whose chain is that slot alone. */
  lemma PutOverflows(l: Layout, k: Key, v: Data, h: int)
    requires InBounds(l) && h == Home(k, |l.slots|) && l.filled != |l.slots|
    requires l.slots[h].Used? && l.slots[h].key != k && l.slots[h].next == NULL
    ensures var linked := l.(slots := l.slots[h := l.slots[h].(next := l.cursor)], collisions := l.collisions + 1);
      Put(l, k, v) == (Settle(linked, l.cursor, k, v), true)
  {
    assert Chain(l.slots, NULL, |l.slots| - 1) == [];
    assert Chain(l.slots, h, |l.slots|) == [h];
    assert FindFrom(l.slots, NULL, k, |l.slots| - 1) == NULL;
  }

  lemma SettleAt(l: Layout, i: int, k: Key, v: Data, slots: seq<Slot>, c: int)
    requires 0 <= i < |l.slots| && slots == l.slots[i := Used(k, v, NULL)] && l.filled + 1 != |slots|
    requires 0 <= c <= l.cursor < |slots| && slots[c].Free?
    requires l.cursor <= c + 1 && (c < l.cursor ==> slots[l.cursor].Used?)
    ensures Settle(l, i, k, v) == Layout(slots, c, l.filled + 1, l.collisions)
  {
    assert Descend(slots, c) == c;
  }

  /** A and B hash to slot 0, C to slot 2: B overflowed into C's home, so C overflowed as well. */
  lemma WitnessTable()
    ensures var t := Put(Put(Put(Create(3), KEY_A, ONE).0, KEY_B, ONE).0, KEY_C, ONE).0;
      t == Layout([Used(KEY_A, ONE, 2), Used(KEY_C, ONE, NULL), Used(KEY_B, ONE, 1)], 1, 3, 2)
  {
    WitnessHomes();
    var t0 := Create(3);
    var t1 := Layout([Used(KEY_A, ONE, NULL), Free, Free], 2, 1, 0);
    PutAtHome(t0, KEY_A, ONE, 0);
    SettleAt(t0, 0, KEY_A, ONE, t1.slots, 2);
    var t2 := Layout([Used(KEY_A, ONE, 2), Free, Used(KEY_B, ONE, NULL)], 1, 2, 1);
    PutOverflows(t1, KEY_B, ONE, 0);
    SettleAt(t1.(slots := [Used(KEY_A, ONE, 2), Free, Free], collisions := 1), 2, KEY_B, ONE, t2.slots, 1);
    PutOverflows(t2, KEY_C, ONE, 2);
  }

  /** The replay starts from the highest slot: B is now at its home, and C finds its own one free. */
  lemma WitnessReplay()
    ensures var t := Put(Put(Put(Create(3), KEY_B, ONE).0, KEY_C, ONE).0, KEY_A, ONE).0;
      t == Layout([Used(KEY_B, ONE, 1), Used(KEY_A, ONE, NULL), Used(KEY_C, ONE, NULL)], 1, 3, 1)
  {
    WitnessHomes();
    var t0 := Create(3);
    var t1 := Layout([Used(KEY_B, ONE, NULL), Free, Free], 2, 1, 0);
    PutAtHome(t0, KEY_B, ONE, 0);
    SettleAt(t0, 0, KEY_B, ONE, t1.slots, 2);
    var t2 := Layout([Used(KEY_B, ONE, NULL), Free, Used(KEY_C, ONE, NULL)], 1, 2, 0);
    PutAtHome(t1, KEY_C, ONE, 2);
    SettleAt(t1, 2, KEY_C, ONE, t2.slots, 1);
    PutOverflows(t2, KEY_A, ONE, 0);
  }

  lemma ThreePuts(t: Layout, a: Pair, b: Pair, c: Pair)
    requires Valid(t)
    ensures InBounds(t) && InBounds(Put(t, a.key, a.value).0)
    ensures InBounds(Put(Put(t, a.key, a.value).0, b.key, b.value).0)
    ensures Valid(Put(Put(Put(t, a.key, a.value).0, b.key, b.value).0, c.key, c.value).0)
    ensures ReplayPairs(t, [a, b, c]) == Put(Put(Put(t, a.key, a.value).0, b.key, b.value).0, c.key, c.value).0
  {
    ValidInBounds(t);
    PutRefines(t, a.key, a.value);
    var t1 := Put(t, a.key, a.value).0;
    ValidInBounds(t1);
    PutRefines(t1, b.key, b.value);
    var t2 := Put(t1, b.key, b.value).0;
    ValidInBounds(t2);
    PutRefines(t2, c.key, c.value);
    assert [a, b, c][1..] == [b, c] && [b, c][1..] == [c] && [c][1..] == [];
    assert ReplayPairs(t2, [c]) == Put(t2, c.key, c.value).0;
    assert ReplayPairs(t1, [b, c]) == ReplayPairs(t2, [c]);
  }

  lemma WitnessPairs(t: Layout)
    requires t.slots == [Used(KEY_A, ONE, 2), Used(KEY_C, ONE, NULL), Used(KEY_B, ONE, 1)]
    ensures PairList(t) == [Pair(KEY_B, ONE), Pair(KEY_C, ONE), Pair(KEY_A, ONE)]
  {
    assert PairsBelow(t.slots, 1) == [Pair(KEY_A, ONE)];
    assert PairsBelow(t.slots, 2) == [Pair(KEY_C, ONE), Pair(KEY_A, ONE)];
  }

  /** Contents survive a transfer, places and the collision counter do not. */
  lemma TransferMovesEntries()
    ensures var t := ReplayPairs(Create(3), [Pair(KEY_A, ONE), Pair(KEY_B, ONE), Pair(KEY_C, ONE)]);
      && Valid(t) && Capacity(t) == 3
      && Contents(Rebuilt(t)) == Contents(t) && Rebuilt(t).slots != t.slots
      && t.collisions == 2 && Rebuilt(t).collisions == 1
  {
    var a, b, c := Pair(KEY_A, ONE), Pair(KEY_B, ONE), Pair(KEY_C, ONE);
    CreateRefines(3);
    ThreePuts(Create(3), a, b, c);
    WitnessTable();
    var t := ReplayPairs(Create(3), [a, b, c]);
    WitnessPairs(t);
    ThreePuts(Create(3), b, c, a);
    WitnessReplay();
    ReplayTable(t);
  }
}
