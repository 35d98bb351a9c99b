/** `table_put` keeps the invariant, and what put and update mean for the contents. */
module CoalescedPut {
  import opened Bytes
  import opened Hashing
  import opened Coalesced
  import opened CoalescedInvariant

  /** A new key enters free slot `c`: its home if `e` is NULL, else linked from `e`, a chain's end. */
  ghost predicate CanGrow(slots: seq<Slot>, e: int, c: int, k: Key) {
    && 0 <= c < |slots| && slots[c].Free?
    && (e == NULL <==> Home(k, |slots|) == c)
    && (e != NULL ==> UsedAt(slots, e) && slots[e].next == NULL)
  }

  function Grow(slots: seq<Slot>, e: int, c: int, k: Key, v: Data): seq<Slot>
    requires 0 <= c < |slots|
    requires e != NULL ==> UsedAt(slots, e)
  {
    (if e == NULL then slots else Link(slots, e, c))[c := Used(k, v, NULL)]
  }

  lemma GrowLinked(slots: seq<Slot>, stamp: seq<int>, bound: nat, e: int, c: int, k: Key, v: Data)
    requires Linked(slots, stamp, bound) && CanGrow(slots, e, c, k)
    ensures Linked(Grow(slots, e, c, k, v), stamp[c := bound], bound + 1)
  {
    var grown := Grow(slots, e, c, k, v);
    forall i {:trigger UsedAt(grown, i)} | UsedAt(grown, i) && i != c
      ensures UsedAt(slots, i)
    {
    }
  }

  lemma GrowInDegree(slots: seq<Slot>, stamp: seq<int>, bound: nat, e: int, c: int, k: Key, v: Data)
    requires Linked(slots, stamp, bound) && CanGrow(slots, e, c, k) && InDegreeOne(slots)
    ensures InDegreeOne(Grow(slots, e, c, k, v))
  {
    var grown := Grow(slots, e, c, k, v);
    forall i, j | UsedAt(grown, i) && UsedAt(grown, j) && grown[i].next == grown[j].next != NULL
      ensures i == j
    {
      assert i != c && j != c;
      assert UsedAt(slots, i) && UsedAt(slots, j);
    }
  }

  lemma GrowTarget(slots: seq<Slot>, stamp: seq<int>, bound: nat, e: int, c: int, k: Key, v: Data, j: int)
    requires Linked(slots, stamp, bound) && CanGrow(slots, e, c, k) && 0 <= j < |slots|
    ensures Target(Grow(slots, e, c, k, v), j) <==> Target(slots, j) || (e != NULL && j == c)
  {
    var grown := Grow(slots, e, c, k, v);
    if Target(slots, j) {
      var i :| UsedAt(slots, i) && slots[i].next == j;
      assert UsedAt(grown, i) && grown[i].next == j;
    }
    if e != NULL && j == c {
      assert UsedAt(grown, e) && grown[e].next == j;
    }
    if Target(grown, j) {
      var i :| UsedAt(grown, i) && grown[i].next == j;
      assert i != c;
      assert UsedAt(slots, i);
    }
  }

  lemma GrowHomeOrTarget(slots: seq<Slot>, stamp: seq<int>, bound: nat, e: int, c: int, k: Key, v: Data)
    requires Linked(slots, stamp, bound) && CanGrow(slots, e, c, k) && HomeOrTarget(slots)
    ensures HomeOrTarget(Grow(slots, e, c, k, v))
  {
    var grown := Grow(slots, e, c, k, v);
    forall j {:trigger HomeAt(grown, j)} | UsedAt(grown, j)
      ensures HomeAt(grown, j) <==> !Target(grown, j)
    {
      GrowTarget(slots, stamp, bound, e, c, k, v, j);
      if j == c {
        assert !Target(slots, c);
      } else {
        assert UsedAt(slots, j);
      }
    }
  }

  /** The chain that ended at `e` gets one slot longer; every other chain stays as it was. */
  lemma {:induction false} GrowChain(slots: seq<Slot>, stamp: seq<int>, bound: nat,
                                     e: int, c: int, k: Key, v: Data, i: int, f: nat)
    requires Linked(slots, stamp, bound) && CanGrow(slots, e, c, k)
    requires UsedAt(slots, i) && bound + 1 - stamp[i] <= f
    ensures Chain(Grow(slots, e, c, k, v), i, f)
         == Chain(slots, i, f) + (if e in Chain(slots, i, f) then [c] else [])
    decreases f
  {
    var grown := Grow(slots, e, c, k, v);
    if i == e {
      assert Chain(slots, slots[i].next, f - 1) == [];
      assert Chain(slots, i, f) == [e];
      assert Chain(grown, c, f - 1) == [c] + Chain(grown, NULL, f - 2);
    } else {
      assert grown[i] == slots[i];
      if slots[i].next != NULL {
        GrowChain(slots, stamp, bound, e, c, k, v, slots[i].next, f - 1);
      } else {
        assert Chain(slots, i, f) == [i];
      }
    }
  }

  lemma GrowReachable(slots: seq<Slot>, stamp: seq<int>, bound: nat, e: int, c: int, k: Key, v: Data)
    requires Linked(slots, stamp, bound) && CanGrow(slots, e, c, k) && Reachable(slots)
    requires bound < |slots|
    requires e != NULL ==> e in Chain(slots, Home(k, |slots|), |slots|)
    ensures Reachable(Grow(slots, e, c, k, v))
  {
    var grown := Grow(slots, e, c, k, v);
    var n := |slots|;
    forall j {:trigger OnOwnChain(grown, j)} | UsedAt(grown, j)
      ensures OnOwnChain(grown, j)
    {
      if j != c {
        assert UsedAt(slots, j) && OnOwnChain(slots, j);
        ChainHead(slots, Home(slots[j].key, n), n, j);
        GrowChain(slots, stamp, bound, e, c, k, v, Home(slots[j].key, n), n);
      } else if e != NULL {
        ChainHead(slots, Home(k, n), n, e);
        GrowChain(slots, stamp, bound, e, c, k, v, Home(k, n), n);
      }
    }
  }

  lemma ChainHead(slots: seq<Slot>, i: int, f: nat, j: int)
    requires j in Chain(slots, i, f)
    ensures UsedAt(slots, i)
  {
  }

  lemma GrowDistinct(slots: seq<Slot>, e: int, c: int, k: Key, v: Data)
    requires CanGrow(slots, e, c, k) && DistinctKeys(slots)
    requires forall i {:trigger UsedAt(slots, i)} :: UsedAt(slots, i) ==> slots[i].key != k
    ensures DistinctKeys(Grow(slots, e, c, k, v))
  {
    var grown := Grow(slots, e, c, k, v);
    forall i, j | UsedAt(grown, i) && UsedAt(grown, j) && grown[i].key == grown[j].key
      ensures i == j
    {
      assert i != c ==> UsedAt(slots, i) && grown[i].key == slots[i].key;
      assert j != c ==> UsedAt(slots, j) && grown[j].key == slots[j].key;
    }
  }

  lemma GrowPacked(slots: seq<Slot>, e: int, c: int, k: Key, v: Data)
    requires CanGrow(slots, e, c, k) && Packed(slots)
    requires e != NULL ==> forall i :: c < i < |slots| ==> UsedAt(slots, i)
    ensures Packed(Grow(slots, e, c, k, v))
  {
    var grown := Grow(slots, e, c, k, v);
    forall i, j | UsedAt(grown, i) && !HomeAt(grown, i) && i < j < |grown| ensures UsedAt(grown, j) {
      if i != c {
        assert UsedAt(slots, i) && !HomeAt(slots, i);
      }
      assert UsedAt(slots, j);
    }
  }

  lemma GrowOccupied(slots: seq<Slot>, e: int, c: int, k: Key, v: Data)
    requires CanGrow(slots, e, c, k)
    ensures |Occupied(Grow(slots, e, c, k, v))| == |Occupied(slots)| + 1
  {
    var grown := Grow(slots, e, c, k, v);
    assert forall i :: UsedAt(grown, i) <==> UsedAt(slots, i) || i == c;
    assert Occupied(grown) == Occupied(slots) + {c};
  }

  lemma GrowSources(slots: seq<Slot>, e: int, c: int, k: Key, v: Data)
    requires CanGrow(slots, e, c, k)
    ensures |Sources(Grow(slots, e, c, k, v))| == |Sources(slots)| + (if e == NULL then 0 else 1)
  {
    var grown := Grow(slots, e, c, k, v);
    if e == NULL {
      assert Sources(grown) == Sources(slots);
    } else {
      assert Sources(grown) == Sources(slots) + {e};
    }
  }

  lemma GrowHeads(slots: seq<Slot>, e: int, c: int, k: Key, v: Data)
    requires CanGrow(slots, e, c, k)
    ensures Heads(Grow(slots, e, c, k, v)) == Heads(slots) + (if e == NULL then {c} else {})
    ensures c !in Heads(slots)
  {
    var grown := Grow(slots, e, c, k, v);
    assert HomeAt(grown, c) <==> e == NULL;
    assert forall i :: i != c ==> (HomeAt(grown, i) <==> HomeAt(slots, i));
  }

  // ----- the cursor -----

  /** Walking down from a slot above which all is used reaches the highest free slot. */
  lemma {:induction false} DescendHighest(slots: seq<Slot>, c: int, free: int)
    requires 0 <= free <= c < |slots| && slots[free].Free?
    requires forall i :: c < i < |slots| ==> UsedAt(slots, i)
    ensures HighestFree(slots, Descend(slots, c))
    decreases c
  {
    if UsedAt(slots, c) {
      DescendHighest(slots, c - 1, free);
    }
  }

  lemma AdvanceHighest(l: Layout)
    requires InBounds(l) && Counted(l)
    requires forall i :: l.cursor < i < |l.slots| ==> UsedAt(l.slots, i)
    ensures InBounds(Advance(l))
    ensures l.filled < |l.slots| ==> HighestFree(l.slots, Advance(l).cursor)
  {
    FilledBounds(l);
    if l.filled < |l.slots| {
      var free :| 0 <= free < |l.slots| && !UsedAt(l.slots, free);
      DescendHighest(l.slots, l.cursor, free);
    }
  }

  // ----- put -----

  /** Whether put stores, and through which link, once the key is known to be absent. */
  function LinkFrom(l: Layout, k: Key): int
    requires InBounds(l)
  {
    var h := Home(k, |l.slots|);
    if l.slots[h].Free? then NULL else Tail(l.slots, h)
  }

  function Placed(l: Layout, k: Key): int
    requires InBounds(l)
  {
    var h := Home(k, |l.slots|);
    if l.slots[h].Free? then h else l.cursor
  }

  ghost predicate Stored(slots: seq<Slot>, k: Key) {
    exists i :: UsedAt(slots, i) && slots[i].key == k
  }

  lemma TailEnds(l: Layout, stamp: seq<int>, h: int)
    requires Inv(l, stamp) && UsedAt(l.slots, h)
    ensures var e := Tail(l.slots, h); l.slots[e].next == NULL && e in Chain(l.slots, h, |l.slots|)
  {
    FilledBounds(l);
    ChainEnds(l.slots, stamp, l.filled, h, |l.slots|);
  }

  /** An absent key of a table with room has a free slot to go to, behind the end of its chain. */
  lemma CanPlace(l: Layout, stamp: seq<int>, k: Key)
    requires Inv(l, stamp) && l.filled < |l.slots|
    ensures CanGrow(l.slots, LinkFrom(l, k), Placed(l, k), k)
    ensures LinkFrom(l, k) != NULL ==> LinkFrom(l, k) in Chain(l.slots, Home(k, |l.slots|), |l.slots|)
  {
    var h := Home(k, |l.slots|);
    if UsedAt(l.slots, h) {
      TailEnds(l, stamp, h);
    }
  }

  /** The table `atualize_next` is given after an absent key went in. */
  function Placing(l: Layout, k: Key, v: Data): Layout
    requires InBounds(l)
  {
    var e := LinkFrom(l, k);
    Layout(Grow(l.slots, e, Placed(l, k), k, v), l.cursor, l.filled + 1,
           if e == NULL then l.collisions else l.collisions + 1)
  }

  lemma FindAbsent(slots: seq<Slot>, k: Key)
    requires |slots| > 0 && !Stored(slots, k)
    ensures Find(slots, k) == NULL
  {
  }

  lemma PutAbsent(l: Layout, k: Key, v: Data)
    requires InBounds(l) && l.filled < |l.slots| && !Stored(l.slots, k)
    ensures Put(l, k, v) == (Advance(Placing(l, k, v)), true)
  {
    FindAbsent(l.slots, k);
    var h := Home(k, |l.slots|);
    if l.slots[h].Used? {
      assert UsedAt(l.slots, h);
      assert UsedAt(l.slots, Tail(l.slots, h));
    }
  }

  /** The put is a duplicate noticed only after `collisions` was incremented. */
  ghost predicate RejectedBeyondHead(l: Layout, k: Key)
    requires InBounds(l)
  {
    && l.filled < |l.slots|
    && Stored(l.slots, k)
    && var h := Home(k, |l.slots|); l.slots[h].Used? && l.slots[h].key != k
  }

  /** A stored key is found, and its home slot is occupied. */
  lemma FindStored(l: Layout, stamp: seq<int>, k: Key)
    requires Inv(l, stamp) && Stored(l.slots, k)
    ensures Find(l.slots, k) != NULL && UsedAt(l.slots, Home(k, |l.slots|))
  {
    var j :| UsedAt(l.slots, j) && l.slots[j].key == k;
    FindComplete(l, stamp, j);
    assert OnOwnChain(l.slots, j);
    ChainHead(l.slots, Home(k, |l.slots|), |l.slots|, j);
  }

  lemma PutFull(l: Layout, k: Key, v: Data)
    requires InBounds(l) && l.filled == |l.slots|
    ensures Put(l, k, v) == (l, false) && !RejectedBeyondHead(l, k)
  {
  }

  lemma PutDuplicate(l: Layout, k: Key, v: Data)
    requires InBounds(l) && l.filled < |l.slots|
    requires Find(l.slots, k) != NULL && UsedAt(l.slots, Home(k, |l.slots|))
    ensures var l1 := if l.slots[Home(k, |l.slots|)].key != k then l.(collisions := l.collisions + 1) else l;
      Put(l, k, v) == (l1, false)
  {
  }

  /** A rejected put changes `collisions` at most, and that only for a duplicate behind the chain's head. */
  lemma PutRejected(l: Layout, stamp: seq<int>, k: Key, v: Data)
    requires Inv(l, stamp) && (l.filled == |l.slots| || Stored(l.slots, k))
    ensures Put(l, k, v) == (if RejectedBeyondHead(l, k) then l.(collisions := l.collisions + 1) else l, false)
  {
    FilledBounds(l);
    if l.filled == |l.slots| {
      PutFull(l, k, v);
    } else {
      FindStored(l, stamp, k);
      PutDuplicate(l, k, v);
    }
  }

  ghost function NextStamp(l: Layout, stamp: seq<int>, k: Key): seq<int>
    requires InBounds(l) && |stamp| == |l.slots|
  {
    if l.filled < |l.slots| && !Stored(l.slots, k) then stamp[Placed(l, k) := l.filled] else stamp
  }

  lemma PlacingStructure(l: Layout, stamp: seq<int>, k: Key, v: Data)
    requires Inv(l, stamp) && l.filled < |l.slots| && !Stored(l.slots, k)
    ensures var slots := Placing(l, k, v).slots;
      && Linked(slots, NextStamp(l, stamp, k), l.filled + 1)
      && InDegreeOne(slots) && HomeOrTarget(slots) && Reachable(slots) && DistinctKeys(slots) && Packed(slots)
  {
    CanPlace(l, stamp, k);
    FilledBounds(l);
    var e, c := LinkFrom(l, k), Placed(l, k);
    GrowLinked(l.slots, stamp, l.filled, e, c, k, v);
    GrowInDegree(l.slots, stamp, l.filled, e, c, k, v);
    GrowHomeOrTarget(l.slots, stamp, l.filled, e, c, k, v);
    GrowReachable(l.slots, stamp, l.filled, e, c, k, v);
    GrowDistinct(l.slots, e, c, k, v);
    GrowPacked(l.slots, e, c, k, v);
  }

  lemma PlacingCounted(l: Layout, stamp: seq<int>, k: Key, v: Data)
    requires Inv(l, stamp) && l.filled < |l.slots|
    ensures Counted(Placing(l, k, v))
  {
    CanPlace(l, stamp, k);
    var e, c := LinkFrom(l, k), Placed(l, k);
    GrowOccupied(l.slots, e, c, k, v);
    GrowSources(l.slots, e, c, k, v);
    GrowHeads(l.slots, e, c, k, v);
    assert e != NULL ==> e in Occupied(l.slots);
  }

  lemma PlacingCursor(l: Layout, stamp: seq<int>, k: Key, v: Data)
    requires Inv(l, stamp) && l.filled < |l.slots|
    ensures forall i :: l.cursor < i < |l.slots| ==> UsedAt(Placing(l, k, v).slots, i)
  {
    hide Chain, Tail, Home, Placeable;
    CanPlace(l, stamp, k);
    forall i | l.cursor < i < |l.slots| ensures UsedAt(Placing(l, k, v).slots, i) {
      assert UsedAt(l.slots, i);
    }
  }

  ghost predicate FreeUpTo(slots: seq<Slot>, c: int) {
    exists free :: 0 <= free <= c && free < |slots| && slots[free].Free?
  }

  /** After an absent key went in, the free slots are still at or below the cursor. */
  lemma RoomBelow(l: Layout, stamp: seq<int>, k: Key, v: Data)
    requires Inv(l, stamp) && l.filled < |l.slots|
    ensures l.filled + 1 == |l.slots| || FreeUpTo(Placing(l, k, v).slots, l.cursor)
  {
    PlacingCounted(l, stamp, k, v);
    PlacingCursor(l, stamp, k, v);
    FilledBounds(Placing(l, k, v));
    if l.filled + 1 != |l.slots| {
      var free :| 0 <= free < |l.slots| && !UsedAt(Placing(l, k, v).slots, free);
    }
  }

  /** Once slot `i` is taken, the table is full or has a free slot at or below the cursor. */
  ghost predicate HasRoom(l: Layout, i: int, k: Key, v: Data)
    requires 0 <= i < |l.slots|
  {
    l.filled + 1 == |l.slots| || FreeUpTo(l.slots[i := Used(k, v, NULL)], l.cursor)
  }

  /** The chain of an absent key gets the link to the cursor, before the key is stored there. */
  function Linking(l: Layout, k: Key): Layout
    requires InBounds(l) && !l.slots[Home(k, |l.slots|)].Free?
  {
    l.(slots := Link(l.slots, Tail(l.slots, Home(k, |l.slots|)), l.cursor), collisions := l.collisions + 1)
  }

  lemma RoomFor(l: Layout, stamp: seq<int>, k: Key, v: Data)
    requires Inv(l, stamp) && l.filled < |l.slots|
    ensures l.slots[Home(k, |l.slots|)].Free? ==> HasRoom(l, Home(k, |l.slots|), k, v)
    ensures !l.slots[Home(k, |l.slots|)].Free? ==>
      HasRoom(Linking(l, k), l.cursor, k, v)
  {
    RoomBelow(l, stamp, k, v);
  }

  /** What the code of put relies on in a table with room: the order of the links, and that the
      cursor still has a free slot to find. */
  lemma Order(l: Layout, k: Key, v: Data) returns (stamp: seq<int>)
    requires Valid(l) && l.filled != |l.slots|
    ensures 0 <= l.filled < |l.slots| && Linked(l.slots, stamp, l.filled)
    ensures l.slots[l.cursor].Free?
    ensures l.slots[Home(k, |l.slots|)].Free? ==> HasRoom(l, Home(k, |l.slots|), k, v)
    ensures !l.slots[Home(k, |l.slots|)].Free? ==>
      HasRoom(Linking(l, k), l.cursor, k, v)
  {
    stamp :| Inv(l, stamp);
    FilledBounds(l);
    RoomFor(l, stamp, k, v);
  }

  /** Put keeps the invariant. */
  lemma PutInv(l: Layout, stamp: seq<int>, k: Key, v: Data)
    requires Inv(l, stamp)
    ensures Inv(Put(l, k, v).0, NextStamp(l, stamp, k))
  {
    FilledBounds(l);
    if l.filled < |l.slots| && !Stored(l.slots, k) {
      PutAbsent(l, k, v);
      PlacingStructure(l, stamp, k, v);
      PlacingCounted(l, stamp, k, v);
      PlacingCursor(l, stamp, k, v);
      AdvanceHighest(Placing(l, k, v));
    } else {
      PutRejected(l, stamp, k, v);
    }
  }

  lemma PutValid(l: Layout, k: Key, v: Data)
    requires Valid(l)
    ensures Valid(Put(l, k, v).0)
  {
    var stamp :| Inv(l, stamp);
    PutInv(l, stamp, k, v);
  }
}
