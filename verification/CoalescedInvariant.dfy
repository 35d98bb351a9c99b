/** The invariant of the coalesced table and its preservation, one clause at a time. */
module CoalescedInvariant {
  import opened Hashing
  import opened Coalesced

  function Occupied(slots: seq<Slot>): set<int> {
    set i | 0 <= i < |slots| && UsedAt(slots, i)
  }

  /** The slots a link leaves from. */
  function Sources(slots: seq<Slot>): set<int> {
    set i | 0 <= i < |slots| && UsedAt(slots, i) && slots[i].next != NULL
  }

  predicate HomeAt(slots: seq<Slot>, i: int) {
    UsedAt(slots, i) && Home(slots[i].key, |slots|) == i
  }

  /** The slots whose own key hashes to them. */
  function Heads(slots: seq<Slot>): set<int> {
    set i | 0 <= i < |slots| && HomeAt(slots, i)
  }

  /** Some link leads to slot `j`. */
  ghost predicate Target(slots: seq<Slot>, j: int) {
    exists i :: UsedAt(slots, i) && slots[i].next == j
  }

  /** `stamp[i]` is how many keys were stored before the one in slot `i`. Links lead to used slots
      and to later insertions, so no walk comes back. */
  ghost predicate Linked(slots: seq<Slot>, stamp: seq<int>, bound: int) {
    && |stamp| == |slots|
    && (forall i {:trigger UsedAt(slots, i)} :: UsedAt(slots, i) ==> 0 <= stamp[i] < bound)
    && (forall i {:trigger UsedAt(slots, i)} :: UsedAt(slots, i) && slots[i].next != NULL ==>
          0 <= slots[i].next < |slots| && slots[slots[i].next].Used? && stamp[i] < stamp[slots[i].next])
  }

  /** No two links lead to the same slot. */
  ghost predicate InDegreeOne(slots: seq<Slot>) {
    forall i, j {:trigger UsedAt(slots, i), UsedAt(slots, j)} ::
      UsedAt(slots, i) && UsedAt(slots, j) && slots[i].next == slots[j].next != NULL ==> i == j
  }

  /** A stored key sits in its home slot exactly when no link leads to that slot. */
  ghost predicate HomeOrTarget(slots: seq<Slot>) {
    forall j {:trigger HomeAt(slots, j)} {:trigger Target(slots, j)} ::
      UsedAt(slots, j) ==> (HomeAt(slots, j) <==> !Target(slots, j))
  }

  /** Every stored key is on the chain that starts at its own home slot. */
  ghost predicate Reachable(slots: seq<Slot>) {
    forall j {:trigger OnOwnChain(slots, j)} :: UsedAt(slots, j) ==> OnOwnChain(slots, j)
  }

  ghost predicate OnOwnChain(slots: seq<Slot>, j: int)
    requires UsedAt(slots, j)
  {
    j in Chain(slots, Home(slots[j].key, |slots|), |slots|)
  }

  ghost predicate DistinctKeys(slots: seq<Slot>) {
    forall i, j {:trigger UsedAt(slots, i), UsedAt(slots, j)} ::
      UsedAt(slots, i) && UsedAt(slots, j) && slots[i].key == slots[j].key ==> i == j
  }

  /** `c` is the highest free slot. */
  ghost predicate HighestFree(slots: seq<Slot>, c: int) {
    && 0 <= c < |slots| && slots[c].Free?
    && forall i :: c < i < |slots| ==> UsedAt(slots, i)
  }

  /** A key away from its home slot went to the highest free slot, above which all stays used. */
  ghost predicate Packed(slots: seq<Slot>) {
    forall i, j {:trigger HomeAt(slots, i), UsedAt(slots, j)} ::
      UsedAt(slots, i) && !HomeAt(slots, i) && i < j < |slots| ==> UsedAt(slots, j)
  }

  ghost predicate Counted(l: Layout) {
    && l.filled == |Occupied(l.slots)|
    && |Sources(l.slots)| + |Heads(l.slots)| == l.filled
    && (l.filled > 0 ==> Heads(l.slots) != {})
  }

  ghost predicate Inv(l: Layout, stamp: seq<int>) {
    && InBounds(l)
    && Linked(l.slots, stamp, l.filled)
    && InDegreeOne(l.slots)
    && HomeOrTarget(l.slots)
    && Reachable(l.slots)
    && DistinctKeys(l.slots)
    && Packed(l.slots)
    && Counted(l)
    && (l.filled < |l.slots| ==> HighestFree(l.slots, l.cursor))
  }

  /** What every table reachable from `table_create` satisfies. */
  ghost predicate Valid(l: Layout) {
    exists stamp :: Inv(l, stamp)
  }

  // ----- counting -----

  function Range(n: nat): (r: set<int>)
    ensures |r| == n && forall i :: i in r <==> 0 <= i < n
  {
    if n == 0 then {} else Range(n - 1) + {n - 1}
  }

  lemma FilledBounds(l: Layout)
    requires Counted(l)
    ensures 0 <= l.filled <= |l.slots|
    ensures l.filled == |l.slots| <==> forall i :: 0 <= i < |l.slots| ==> UsedAt(l.slots, i)
  {
    var all := Range(|l.slots|);
    var used := Occupied(l.slots);
    assert all == used + (all - used);
    assert |all| == |used| + |all - used|;
    if l.filled == |l.slots| {
      assert all - used == {};
      forall i | 0 <= i < |l.slots| ensures UsedAt(l.slots, i) {
        assert i in all;
      }
    } else {
      var i :| i in all - used;
    }
  }

  // ----- chains -----

  /** Once every later insertion can be visited, more fuel changes nothing. */
  lemma {:induction false} EnoughFuel(slots: seq<Slot>, stamp: seq<int>, bound: int, i: int, f: nat, g: nat)
    requires Linked(slots, stamp, bound) && UsedAt(slots, i)
    requires bound - stamp[i] <= f && bound - stamp[i] <= g
    ensures Chain(slots, i, f) == Chain(slots, i, g)
    decreases bound - stamp[i]
  {
    if slots[i].next != NULL {
      EnoughFuel(slots, stamp, bound, slots[i].next, f - 1, g - 1);
    }
  }

  lemma Unfold(slots: seq<Slot>, stamp: seq<int>, bound: int, i: int)
    requires Linked(slots, stamp, bound) && UsedAt(slots, i) && bound <= |slots|
    ensures Chain(slots, i, |slots|) == [i] + Chain(slots, slots[i].next, |slots|)
  {
    if slots[i].next != NULL {
      EnoughFuel(slots, stamp, bound, slots[i].next, |slots| - 1, |slots|);
    }
  }

  /** A walk ends at a slot without a link. */
  lemma {:induction false} ChainEnds(slots: seq<Slot>, stamp: seq<int>, bound: int, i: int, f: nat)
    requires Linked(slots, stamp, bound) && UsedAt(slots, i)
    requires bound - stamp[i] <= f
    ensures var c := Chain(slots, i, f); c != [] && UsedAt(slots, c[|c| - 1]) && slots[c[|c| - 1]].next == NULL
    decreases bound - stamp[i]
  {
    var c := Chain(slots, i, f);
    if slots[i].next != NULL {
      ChainEnds(slots, stamp, bound, slots[i].next, f - 1);
      assert c == [i] + Chain(slots, slots[i].next, f - 1);
    }
  }

  /** The walk that finds a key finds it if its slot is on the chain. */
  lemma {:induction false} FindOnChain(slots: seq<Slot>, i: int, f: nat, j: int)
    requires j in Chain(slots, i, f)
    ensures FindFrom(slots, i, slots[j].key, f) != NULL
    decreases f
  {
    if i != j && slots[i].key != slots[j].key {
      FindOnChain(slots, slots[i].next, f - 1, j);
    }
  }

  /** `get_entry` misses no key, and finds the one slot that holds it. */
  lemma FindComplete(l: Layout, stamp: seq<int>, j: int)
    requires Inv(l, stamp) && UsedAt(l.slots, j)
    ensures Find(l.slots, l.slots[j].key) == j
  {
    assert OnOwnChain(l.slots, j);
    FindOnChain(l.slots, Home(l.slots[j].key, |l.slots|), |l.slots|, j);
  }

  // ----- creation -----

  lemma CreateInv(n: int)
    requires n > 0
    ensures Inv(Create(n), seq(n, _ => 0))
  {
    var slots := Create(n).slots;
    assert Occupied(slots) == {} && Sources(slots) == {} && Heads(slots) == {};
  }
}
