/** What a state transfer does to the places of the entries and to the collision counter. */
module TransferPlaces {
  import opened Bytes
  import opened Hashing
  import opened Coalesced
  import opened CoalescedInvariant
  import opened CoalescedPut
  import opened CoalescedMap
  import CoalescedRuns
  import opened Dispatch
  import opened StateTransfer

  /** Every link leads to a lower slot. */
  ghost predicate LinksDown(slots: seq<Slot>) {
    forall i {:trigger UsedAt(slots, i)} :: UsedAt(slots, i) && slots[i].next != NULL ==> slots[i].next < i
  }

  // ----- if all links lead down, every entry comes back to its slot -----

  /** The slots from `j` on, without the links to lower ones. */
  function Above(slots: seq<Slot>, j: int): (r: seq<Slot>)
    ensures |r| == |slots|
    ensures forall i :: 0 <= i < |slots| ==>
      r[i] == if i < j || slots[i].Free? then Free
              else slots[i].(next := if slots[i].next < j then NULL else slots[i].next)
  {
    seq(|slots|, i requires 0 <= i < |slots| =>
      if i < j || slots[i].Free? then Free
      else slots[i].(next := if slots[i].next < j then NULL else slots[i].next))
  }

  lemma {:induction false} ChainFalls(slots: seq<Slot>, i: int, f: nat, x: int)
    requires LinksDown(slots) && x in Chain(slots, i, f)
    ensures x <= i
    decreases f
  {
    assert UsedAt(slots, i);
    if x != i && slots[i].next != NULL {
      ChainFalls(slots, slots[i].next, f - 1, x);
    }
  }

  /** With the slots above `x` in place, the chain that goes on to `x` ends at the slot that links to it. */
  lemma {:induction false} EndsBefore(slots: seq<Slot>, x: int, i: int, f: nat)
    requires LinksDown(slots) && 0 <= x < i && x in Chain(slots, i, f)
    ensures var c := Chain(Above(slots, x + 1), i, f);
      c != [] && UsedAt(slots, c[|c| - 1]) && slots[c[|c| - 1]].next == x
    decreases f
  {
    var above, next := Above(slots, x + 1), slots[i].next;
    assert UsedAt(slots, i) && UsedAt(above, i);
    assert x in Chain(slots, next, f - 1);
    if next == x {
      assert Chain(above, NULL, f - 1) == [];
      assert Chain(above, i, f) == [i];
    } else {
      ChainFalls(slots, next, f - 1, x);
      EndsBefore(slots, x, next, f - 1);
      assert above[i].next == next;
      assert Chain(above, i, f) == [i] + Chain(above, next, f - 1);
    }
  }

  lemma AboveStored(t: Layout, x: int)
    requires DistinctKeys(t.slots) && UsedAt(t.slots, x)
    ensures !Stored(Above(t.slots, x + 1), t.slots[x].key)
  {
    var above := Above(t.slots, x + 1);
    forall i | UsedAt(above, i) ensures above[i].key != t.slots[x].key {
      assert UsedAt(t.slots, i);
    }
  }

  /** The entry at its home slot `x` comes back there... */
  lemma ComesHome(t: Layout, l: Layout, x: int)
    requires InBounds(l) && HomeAt(t.slots, x) && l.slots == Above(t.slots, x + 1)
    ensures Placed(l, t.slots[x].key) == x && LinkFrom(l, t.slots[x].key) == NULL
  {
  }

  /** ...and one away from home, above which all is used, is put at the cursor, behind the slot that linked to it. */
  lemma ComesBehind(t: Layout, stamp: seq<int>, l: Layout, x: int)
    requires Inv(t, stamp) && LinksDown(t.slots) && UsedAt(t.slots, x) && !HomeAt(t.slots, x)
    requires InBounds(l) && HighestFree(l.slots, l.cursor) && l.slots == Above(t.slots, x + 1)
    ensures var k := t.slots[x].key; var e := LinkFrom(l, k);
      Placed(l, k) == x && UsedAt(t.slots, e) && t.slots[e].next == x
  {
    ComesBehindHome(t, stamp, x);
    CursorAt(t.slots, l, x);
    EndsBefore(t.slots, x, Home(t.slots[x].key, |t.slots|), |t.slots|);
  }

  /** The home slot of an entry away from home is higher, and on its chain. */
  lemma ComesBehindHome(t: Layout, stamp: seq<int>, x: int)
    requires Inv(t, stamp) && LinksDown(t.slots) && UsedAt(t.slots, x) && !HomeAt(t.slots, x)
    ensures var h := Home(t.slots[x].key, |t.slots|); x < h && UsedAt(t.slots, h) && x in Chain(t.slots, h, |t.slots|)
  {
    var h := Home(t.slots[x].key, |t.slots|);
    assert OnOwnChain(t.slots, x);
    ChainHead(t.slots, h, |t.slots|, x);
    ChainFalls(t.slots, h, |t.slots|, x);
  }

  lemma CursorAt(slots: seq<Slot>, l: Layout, x: int)
    requires Packed(slots) && UsedAt(slots, x) && !HomeAt(slots, x)
    requires HighestFree(l.slots, l.cursor) && l.slots == Above(slots, x + 1)
    ensures l.cursor == x
  {
    assert !UsedAt(l.slots, x) && !UsedAt(l.slots, l.cursor);
    forall i | x < i < |slots| ensures UsedAt(l.slots, i) {
      assert UsedAt(slots, i);
    }
  }

  lemma RoomAt(l: Layout, x: int)
    requires Valid(l) && 0 <= x < |l.slots| && !UsedAt(l.slots, x)
    ensures InBounds(l) && l.filled < |l.slots| && HighestFree(l.slots, l.cursor)
  {
    var stamp :| Inv(l, stamp);
    FilledBounds(l);
  }

  lemma AboveFree(t: Layout, stamp: seq<int>, x: int)
    requires Inv(t, stamp) && 0 <= x < |t.slots| && t.slots[x].Free?
    ensures Above(t.slots, x) == Above(t.slots, x + 1)
  {
    forall i | 0 <= i < |t.slots| ensures Above(t.slots, x)[i] == Above(t.slots, x + 1)[i] {
      assert UsedAt(t.slots, i) ==> t.slots[i].next != x;
    }
  }

  lemma AboveGrown(t: Layout, stamp: seq<int>, x: int, e: int)
    requires Inv(t, stamp) && LinksDown(t.slots) && UsedAt(t.slots, x)
    requires if HomeAt(t.slots, x) then e == NULL else UsedAt(t.slots, e) && t.slots[e].next == x
    ensures e != NULL ==> UsedAt(Above(t.slots, x + 1), e)
    ensures Grow(Above(t.slots, x + 1), e, x, t.slots[x].key, t.slots[x].value) == Above(t.slots, x)
  {
    var slots := t.slots;
    var grown := Grow(Above(slots, x + 1), e, x, slots[x].key, slots[x].value);
    assert HomeAt(slots, x) ==> !Target(slots, x);
    forall i | 0 <= i < |slots| ensures grown[i] == Above(slots, x)[i] {
      if UsedAt(slots, i) && i != x && i != e {
        assert slots[i].next != x;
      }
    }
  }

  lemma PutGrows(l: Layout, k: Key, v: Data)
    requires Valid(l) && InBounds(l) && l.filled < |l.slots| && !Stored(l.slots, k)
    ensures LinkFrom(l, k) != NULL ==> UsedAt(l.slots, LinkFrom(l, k))
    ensures Put(l, k, v).1 && Put(l, k, v).0.slots == Grow(l.slots, LinkFrom(l, k), Placed(l, k), k, v)
    ensures Valid(Put(l, k, v).0) && Capacity(Put(l, k, v).0) == Capacity(l) && InBounds(Put(l, k, v).0)
  {
    PutAbsent(l, k, v);
    PutRefines(l, k, v);
    ValidInBounds(Put(l, k, v).0);
  }

  lemma RebuildsSlot(t: Layout, stamp: seq<int>, l: Layout, x: int)
    requires Inv(t, stamp) && LinksDown(t.slots) && UsedAt(t.slots, x)
    requires Valid(l) && l.slots == Above(t.slots, x + 1)
    ensures InBounds(l)
    ensures var l1 := Put(l, t.slots[x].key, t.slots[x].value).0; Valid(l1) && l1.slots == Above(t.slots, x)
  {
    hide Put, Inv, Valid, LinkFrom, Placed, Grow;
    RoomAt(l, x);
    if HomeAt(t.slots, x) {
      ComesHome(t, l, x);
    } else {
      ComesBehind(t, stamp, l, x);
    }
    KeysDistinct(t, stamp);
    AboveStored(t, x);
    PutGrows(l, t.slots[x].key, t.slots[x].value);
    AboveGrown(t, stamp, x, LinkFrom(l, t.slots[x].key));
  }

  lemma KeysDistinct(t: Layout, stamp: seq<int>)
    requires Inv(t, stamp)
    ensures DistinctKeys(t.slots)
  {
  }

  /** From the slots at `j` and above, the replay of the entries below `j` rebuilds the table. */
  lemma {:induction false} RebuildsFrom(t: Layout, stamp: seq<int>, l: Layout, j: int)
    requires Inv(t, stamp) && LinksDown(t.slots) && 0 <= j <= |t.slots|
    requires Valid(l) && l.slots == Above(t.slots, j)
    ensures ReplayPairs(l, PairsBelow(t.slots, j)).slots == t.slots
    decreases j
  {
    hide Put, Inv, Valid, LinksDown;
    if j == 0 {
      AboveAll(t, stamp);
    } else if UsedAt(t.slots, j - 1) {
      RebuildsSlot(t, stamp, l, j - 1);
      RebuildsFrom(t, stamp, Put(l, t.slots[j - 1].key, t.slots[j - 1].value).0, j - 1);
      assert PairsBelow(t.slots, j)[1..] == PairsBelow(t.slots, j - 1);
    } else {
      AboveFree(t, stamp, j - 1);
      RebuildsFrom(t, stamp, l, j - 1);
      assert PairsBelow(t.slots, j) == PairsBelow(t.slots, j - 1);
    }
  }

  lemma AboveAll(t: Layout, stamp: seq<int>)
    requires Inv(t, stamp)
    ensures Above(t.slots, 0) == t.slots
  {
    forall i | 0 <= i < |t.slots| ensures Above(t.slots, 0)[i] == t.slots[i] {
      assert UsedAt(t.slots, i) ==> t.slots[i].next == NULL || t.slots[i].next >= 0;
    }
  }

  // ----- if every entry comes back to its slot, all links lead down -----

  ghost predicate Before(ps: seq<Pair>, a: Key, b: Key) {
    exists i, j :: 0 <= i < j < |ps| && ps[i].key == a && ps[j].key == b
  }

  ghost predicate Among(ps: seq<Pair>, k: Key) {
    exists i :: 0 <= i < |ps| && ps[i].key == k
  }

  /** The keys are those of `ps`, and links lead from earlier to later ones of them. */
  ghost predicate InOrder(slots: seq<Slot>, ps: seq<Pair>) {
    && (forall i {:trigger UsedAt(slots, i)} :: UsedAt(slots, i) ==> Among(ps, slots[i].key))
    && (forall i {:trigger UsedAt(slots, i)} :: UsedAt(slots, i) && UsedAt(slots, slots[i].next) ==>
          Before(ps, slots[i].key, slots[slots[i].next].key))
  }

  lemma BeforeMore(ps: seq<Pair>, p: Pair, a: Key)
    requires Among(ps, a)
    ensures Among(ps + [p], a) && Before(ps + [p], a, p.key)
  {
    var i :| 0 <= i < |ps| && ps[i].key == a;
    var more := ps + [p];
    assert more[i].key == a && more[|ps|].key == p.key;
  }

  lemma BeforeStays(ps: seq<Pair>, p: Pair, a: Key, b: Key)
    requires Before(ps, a, b)
    ensures Before(ps + [p], a, b)
  {
    var i, j :| 0 <= i < j < |ps| && ps[i].key == a && ps[j].key == b;
    var more := ps + [p];
    assert more[i].key == a && more[j].key == b;
  }

  lemma GrowInOrder(slots: seq<Slot>, stamp: seq<int>, bound: int, e: int, c: int, p: Pair, ps: seq<Pair>)
    requires Linked(slots, stamp, bound) && CanGrow(slots, e, c, p.key) && InOrder(slots, ps)
    ensures InOrder(Grow(slots, e, c, p.key, p.value), ps + [p])
  {
    var grown := Grow(slots, e, c, p.key, p.value);
    var more := ps + [p];
    forall i {:trigger UsedAt(grown, i)} | UsedAt(grown, i)
      ensures Among(more, grown[i].key)
      ensures UsedAt(grown, grown[i].next) ==> Before(more, grown[i].key, grown[grown[i].next].key)
    {
      if i == c {
        assert more[|ps|] == p;
      } else {
        assert UsedAt(slots, i);
        BeforeMore(ps, p, slots[i].key);
        if i != e && UsedAt(grown, grown[i].next) {
          assert UsedAt(slots, slots[i].next);
          BeforeStays(ps, p, slots[i].key, slots[slots[i].next].key);
        }
      }
    }
  }

  lemma PutInOrder(l: Layout, p: Pair, done: seq<Pair>)
    requires Valid(l) && InBounds(l) && l.filled < |l.slots| && !Stored(l.slots, p.key) && InOrder(l.slots, done)
    ensures InOrder(Put(l, p.key, p.value).0.slots, done + [p])
  {
    var stamp :| Inv(l, stamp);
    CanPlace(l, stamp, p.key);
    PutAbsent(l, p.key, p.value);
    GrowInOrder(l.slots, stamp, l.filled, LinkFrom(l, p.key), Placed(l, p.key), p, done);
  }

  lemma ReplayInOrderStep(l: Layout, ps: seq<Pair>, done: seq<Pair>)
    requires Valid(l) && ps != [] && Fits(l, ps) && InOrder(l.slots, done)
    ensures InBounds(l)
    ensures var l1 := Put(l, ps[0].key, ps[0].value).0;
      Valid(l1) && Fits(l1, ps[1..]) && InOrder(l1.slots, done + [ps[0]])
  {
    hide Put, Valid, InOrder;
    FitsStep(l, ps);
    ContentsAbsent(l, ps[0].key);
    PutInOrder(l, ps[0], done);
  }

  lemma {:induction false} ReplayInOrder(l: Layout, ps: seq<Pair>, done: seq<Pair>)
    requires Valid(l) && Fits(l, ps) && InOrder(l.slots, done)
    ensures InOrder(ReplayPairs(l, ps).slots, done + ps)
    decreases |ps|
  {
    hide Put, Valid, InOrder, Fits;
    if ps == [] {
      assert done + ps == done;
    } else {
      ReplayInOrderStep(l, ps, done);
      ReplayInOrder(Put(l, ps[0].key, ps[0].value).0, ps[1..], done + [ps[0]]);
      assert done + [ps[0]] + ps[1..] == done + ps;
    }
  }

  lemma ContentsAbsent(l: Layout, k: Key)
    requires Valid(l) && k !in Contents(l) && |Contents(l)| < Capacity(l)
    ensures !Stored(l.slots, k) && l.filled < |l.slots|
  {
    var stamp :| Inv(l, stamp);
    ContentsKeys(l, k);
    SizeRefines(l);
  }

  /** Entries are listed from the highest slot down. */
  lemma {:induction false} ListedDown(slots: seq<Slot>, j: int, x: int, y: int, a: int, b: int)
    requires DistinctKeys(slots) && 0 < j <= |slots| && UsedAt(slots, a) && UsedAt(slots, b)
    requires 0 <= x < y < |PairsBelow(slots, j)|
    requires PairsBelow(slots, j)[x].key == slots[a].key && PairsBelow(slots, j)[y].key == slots[b].key
    ensures a > b
    decreases j
  {
    hide MapBelow;
    ListedNext(slots, j);
    if UsedAt(slots, j - 1) {
      HolderBelow(slots, j - 1, y - 1, b);
      if x > 0 {
        ListedDown(slots, j - 1, x - 1, y - 1, a, b);
      }
    } else {
      ListedDown(slots, j - 1, x, y, a, b);
    }
  }

  lemma ListedNext(slots: seq<Slot>, j: int)
    requires 0 < j <= |slots|
    ensures var ps, below := PairsBelow(slots, j), PairsBelow(slots, j - 1);
      if UsedAt(slots, j - 1)
      then |ps| == |below| + 1 && ps[0].key == slots[j - 1].key && forall i :: 0 < i < |ps| ==> ps[i] == below[i - 1]
      else ps == below
  {
  }

  lemma HolderBelow(slots: seq<Slot>, j: int, y: int, b: int)
    requires DistinctKeys(slots) && 0 <= j <= |slots| && UsedAt(slots, b)
    requires 0 <= y < |PairsBelow(slots, j)| && PairsBelow(slots, j)[y].key == slots[b].key
    ensures b < j
  {
    PairsBound(slots, j, y);
    var i := BelowHolder(slots, j, slots[b].key);
  }

  lemma KeptLinksDown(t: Layout, stamp: seq<int>)
    requires Inv(t, stamp) && InOrder(t.slots, PairList(t))
    ensures LinksDown(t.slots)
  {
    forall i {:trigger UsedAt(t.slots, i)} | UsedAt(t.slots, i) && t.slots[i].next != NULL ensures t.slots[i].next < i {
      var c, ps := t.slots[i].next, PairList(t);
      assert UsedAt(t.slots, c);
      var x, y :| 0 <= x < y < |ps| && ps[x].key == t.slots[i].key && ps[y].key == t.slots[c].key;
      ListedDown(t.slots, |t.slots|, x, y, i, c);
    }
  }

  // ----- the whole transfer of a table -----

  lemma DownIsKept(t: Layout)
    requires Valid(t) && Capacity(t) > 0 && LinksDown(t.slots)
    ensures Rebuilt(t).slots == t.slots
  {
    hide Inv, LinksDown;
    var stamp :| Inv(t, stamp);
    var new0 := Create(Capacity(t));
    CreateRefines(Capacity(t));
    assert Above(t.slots, |t.slots|) == new0.slots;
    RebuildsFrom(t, stamp, new0, |t.slots|);
  }

  lemma KeptIsDown(t: Layout)
    requires Valid(t) && Capacity(t) > 0 && Rebuilt(t).slots == t.slots
    ensures LinksDown(t.slots)
  {
    hide Inv, LinksDown, Fits;
    var stamp :| Inv(t, stamp);
    var new0 := Create(Capacity(t));
    NewFits(t);
    assert InOrder(new0.slots, []);
    ReplayInOrder(new0, PairList(t), []);
    assert [] + PairList(t) == PairList(t);
    KeptLinksDown(t, stamp);
  }

  lemma NewFits(t: Layout)
    requires Valid(t) && Capacity(t) > 0
    ensures Valid(Create(Capacity(t))) && Fits(Create(Capacity(t)), PairList(t))
  {
    CreateRefines(Capacity(t));
    PairListDistinct(t);
  }

  /** Tables with the same slots have the same `filled`, and the same cursor unless they are full. */
  lemma SlotsDetermine(a: Layout, b: Layout)
    requires Valid(a) && Valid(b) && a.slots == b.slots
    ensures a.filled == b.filled && (a.filled < Capacity(a) ==> a.cursor == b.cursor)
  {
    if a.filled < Capacity(a) {
      assert !UsedAt(a.slots, a.cursor) && !UsedAt(b.slots, b.cursor);
    }
  }

  /** A transfer keeps every entry and link in its place if and only if every link of the table leads to a
      lower slot. Then it keeps all of the table but the collision counter and the cursor of a full one. */
  lemma PlacesKeptIff(t: Layout)
    requires Valid(t)
    ensures Capacity(t) > 0
    ensures Rebuilt(t).slots == t.slots <==> LinksDown(t.slots)
    ensures LinksDown(t.slots) && t.filled < Capacity(t) ==> Rebuilt(t).(collisions := t.collisions) == t
  {
    ValidInBounds(t);
    if LinksDown(t.slots) {
      DownIsKept(t);
      ReplayTable(t);
      SlotsDetermine(Rebuilt(t), t);
    }
    if Rebuilt(t).slots == t.slots {
      KeptIsDown(t);
    }
  }

  lemma {:induction false} ReplayCollisions(l: Layout, ps: seq<Pair>)
    requires Valid(l) && Fits(l, ps)
    ensures ReplayPairs(l, ps).collisions - |Sources(ReplayPairs(l, ps).slots)| == l.collisions - |Sources(l.slots)|
    decreases |ps|
  {
    if ps != [] {
      FitsStep(l, ps);
      ContentsAbsent(l, ps[0].key);
      CoalescedRuns.PutCollisions(l, ps[0].key, ps[0].value);
      ReplayCollisions(Put(l, ps[0].key, ps[0].value).0, ps[1..]);
    }
  }

  lemma RebuiltCollisions(t: Layout)
    requires Valid(t)
    ensures Capacity(t) > 0 && Rebuilt(t).collisions == |Sources(Rebuilt(t).slots)|
  {
    ValidInBounds(t);
    NewFits(t);
    ReplayCollisions(Create(Capacity(t)), PairList(t));
    assert Sources(Create(Capacity(t)).slots) == {};
  }

  // ----- chain heads, and what becomes of the links -----

  lemma PutKeepsHeads(l: Layout, k: Key, v: Data)
    requires Valid(l) && InBounds(l) && l.filled < |l.slots| && !Stored(l.slots, k)
    ensures Heads(l.slots) <= Heads(Put(l, k, v).0.slots) && Put(l, k, v).0.filled == l.filled + 1
    ensures var h := Home(k, |l.slots|); l.slots[h].Free? ==> HomeAt(Put(l, k, v).0.slots, h)
  {
    var stamp :| Inv(l, stamp);
    CanPlace(l, stamp, k);
    PutAbsent(l, k, v);
    GrowHeads(l.slots, LinkFrom(l, k), Placed(l, k), k, v);
  }

  /** With all slots from `h` on in use there are at least so many keys. */
  lemma UsedFrom(l: Layout, h: int)
    requires Counted(l) && 0 <= h <= |l.slots| && forall i :: h <= i < |l.slots| ==> UsedAt(l.slots, i)
    ensures l.filled >= |l.slots| - h
  {
    var n := |l.slots|;
    assert Range(n) == Range(h) + (Range(n) - Range(h));
    assert |Range(n) - Range(h)| == n - h;
    CoalescedRuns.SubsetSize(Range(n) - Range(h), Occupied(l.slots));
  }

  /** A slot taken by a key away from home has all slots above it in use, so few keys cannot take it. */
  lemma TakenIsHome(l: Layout, x: int)
    requires Valid(l) && UsedAt(l.slots, x) && l.filled < |l.slots| - x
    ensures HomeAt(l.slots, x)
  {
    var stamp :| Inv(l, stamp);
    if !HomeAt(l.slots, x) {
      forall i | x <= i < |l.slots| ensures UsedAt(l.slots, i) {
      }
      UsedFrom(l, x);
    }
  }

  /** The put of the entry of slot `x`, after fewer entries than there are slots above `x` and `x` itself. */
  lemma HeadComesBack(t: Layout, l: Layout, x: int)
    requires UsedAt(t.slots, x) && Valid(l) && InBounds(l) && |l.slots| == |t.slots|
    requires l.filled < |l.slots| - x && !Stored(l.slots, t.slots[x].key)
    ensures var l1 := Put(l, t.slots[x].key, t.slots[x].value).0;
      && Heads(l.slots) <= Heads(l1.slots) && l1.filled == l.filled + 1
      && (HomeAt(t.slots, x) ==> HomeAt(l1.slots, x))
  {
    hide Inv, Valid, Put;
    PutKeepsHeads(l, t.slots[x].key, t.slots[x].value);
    if HomeAt(t.slots, x) && l.slots[x].Used? {
      TakenIsHome(l, x);
      assert x in Heads(l.slots);
    }
  }

  /** Every head at `j` or above is one. */
  ghost predicate HeadsFrom(t: seq<Slot>, l: seq<Slot>, j: int) {
    |t| == |l| && forall h :: j <= h && h in Heads(t) ==> h in Heads(l)
  }

  lemma {:induction false} HeadsComeBack(t: Layout, l: Layout, j: int)
    requires 0 <= j <= |t.slots| && Valid(l) && Fits(l, PairsBelow(t.slots, j))
    requires l.filled <= |l.slots| - j && HeadsFrom(t.slots, l.slots, j)
    ensures HeadsFrom(t.slots, ReplayPairs(l, PairsBelow(t.slots, j)).slots, 0)
    decreases j
  {
    hide Inv, Valid, Put, Fits, Heads;
    if j > 0 {
      var x, ps := j - 1, PairsBelow(t.slots, j);
      if UsedAt(t.slots, x) {
        assert ps[1..] == PairsBelow(t.slots, x);
        FitsStep(l, ps);
        FitsAbsent(l, ps);
        HeadComesBack(t, l, x);
        var l1 := Put(l, ps[0].key, ps[0].value).0;
        HeadsStep(t.slots, l.slots, l1.slots, x);
        HeadsComeBack(t, l1, x);
      } else {
        assert ps == PairsBelow(t.slots, x);
        HeadsStep(t.slots, l.slots, l.slots, x);
        HeadsComeBack(t, l, x);
      }
    }
  }

  lemma FitsAbsent(l: Layout, ps: seq<Pair>)
    requires Valid(l) && ps != [] && Fits(l, ps)
    ensures !Stored(l.slots, ps[0].key) && l.filled < |l.slots|
  {
    hide Inv, Valid;
    ContentsAbsent(l, ps[0].key);
  }

  lemma HeadsStep(t: seq<Slot>, l: seq<Slot>, l1: seq<Slot>, x: int)
    requires 0 <= x < |t| == |l| == |l1| && HeadsFrom(t, l, x + 1) && Heads(l) <= Heads(l1)
    requires HomeAt(t, x) ==> HomeAt(l1, x)
    ensures HeadsFrom(t, l1, x)
  {
  }

  /** Every slot that holds a key at home still does after a transfer, so no link is added: exactly one is
      lost for each slot that newly does. */
  lemma HeadsKept(t: Layout)
    requires Valid(t)
    ensures Capacity(t) > 0 && Heads(t.slots) <= Heads(Rebuilt(t).slots)
    ensures |Sources(Rebuilt(t).slots)| == |Sources(t.slots)| - |Heads(Rebuilt(t).slots) - Heads(t.slots)|
  {
    hide ReplayPairs;
    ReplayTable(t);
    NewFits(t);
    HeadsComeBack(t, Create(Capacity(t)), |t.slots|);
    SizeRefines(t);
    SizeRefines(Rebuilt(t));
    var old0, new0 := Heads(t.slots), Heads(Rebuilt(t).slots);
    assert new0 == old0 + (new0 - old0);
    assert |new0| == |old0| + |new0 - old0|;
  }

  /** After any operations on a new table, a transfer lowers the collision counter by the puts that were
      rejected behind the head of their chain and by the slots that newly hold a key at home. So it never
      raises the counter, and keeps it if and only if there are neither. */
  lemma CollisionsKeptIff(n: int, ops: seq<CoalescedRuns.Op>)
    requires n > 0
    ensures var t := CoalescedRuns.Run(Create(n), ops).0;
      var late := CoalescedRuns.LateRejections(Create(n), ops);
      && Valid(t) && Capacity(t) == n && late >= 0
      && t.collisions - Rebuilt(t).collisions == late + |Heads(Rebuilt(t).slots) - Heads(t.slots)|
      && Rebuilt(t).collisions <= t.collisions
      && (Rebuilt(t).collisions == t.collisions <==> late == 0 && Heads(Rebuilt(t).slots) == Heads(t.slots))
      && (LinksDown(t.slots) ==> Heads(Rebuilt(t).slots) == Heads(t.slots))
  {
    hide CoalescedRuns.Run, CoalescedRuns.LateRejections, Heads, Inv, Rebuilt;
    CreateRefines(n);
    CoalescedRuns.RunRefines(Create(n), ops);
    CoalescedRuns.CollisionAccounting(n, ops);
    LateIsNatural(Create(n), ops);
    var t := CoalescedRuns.Run(Create(n), ops).0;
    RebuiltCollisions(t);
    HeadsKept(t);
    PlacesKeptIff(t);
    var new0 := Heads(Rebuilt(t).slots) - Heads(t.slots);
    assert new0 == {} ==> Heads(Rebuilt(t).slots) == Heads(t.slots);
  }

  lemma {:induction false} LateIsNatural(l: Layout, ops: seq<CoalescedRuns.Op>)
    ensures CoalescedRuns.LateRejections(l, ops) >= 0
    decreases |ops|
  {
    if ops != [] && InBounds(l) {
      LateIsNatural(CoalescedRuns.Apply(l, ops[0]).0, ops[1..]);
    }
  }

  /** The receiver of a transfer has a table's entries and links in the sender's places if and only if all
      links of that table lead down, and its collision counter is the number of the new links. */
  lemma ReceivedPlacesIff(held: seq<Layout>, sizes: seq<CString>, ts: seq<Layout>, i: int)
    requires AllValid(ts) && SizesDescribe(sizes, ts) && 0 <= i < |ts|
    ensures var r := HandleAll(held, Transfer(sizes, ts));
      && |r| == |ts|
      && (r[i].slots == ts[i].slots <==> LinksDown(ts[i].slots))
      && r[i].collisions == |Sources(r[i].slots)| <= |Sources(ts[i].slots)|
  {
    hide HandleAll, Transfer, Rebuilt, LinksDown, Sources;
    TransferRebuilds(held, sizes, ts);
    PlacesKeptIff(ts[i]);
    RebuiltCollisions(ts[i]);
    HeadsKept(ts[i]);
  }
}
