/** Coalesced chaining (Knuth, TAOCP vol. 3, section 6.4, Algorithm C) as `source/table.c` does it:
    what one table looks like, what put and update make of it, and what lookups find in it. */
module Coalesced {
  import opened Bytes
  import opened Hashing

  /** The NULL of a `next` link and of `get_entry`'s result. */
  const NULL := -1

  /** An `entry_t` of the table's array; key and value are NULL together. Links are slot numbers. */
  datatype Slot = Free | Used(key: Key, value: Data, next: int)

  /** A `table_t`: its array, the `next` cursor, `filled` and `collisions`. */
  datatype Layout = Layout(slots: seq<Slot>, cursor: int, filled: int, collisions: int)

  predicate UsedAt(slots: seq<Slot>, i: int) {
    0 <= i < |slots| && slots[i].Used?
  }

  /** The slots a walk along the links from `i` visits, at most `fuel` of them. */
  function Chain(slots: seq<Slot>, i: int, fuel: nat): (c: seq<int>)
    ensures forall x :: x in c ==> UsedAt(slots, x)
    ensures fuel > 0 && UsedAt(slots, i) ==> c != [] && c[0] == i
    decreases fuel
  {
    if fuel > 0 && 0 <= i < |slots| && slots[i].Used? then [i] + Chain(slots, slots[i].next, fuel - 1) else []
  }

  /** The first slot with key `k` on the walk from `i`, or NULL. */
  function FindFrom(slots: seq<Slot>, i: int, k: Key, fuel: nat): (r: int)
    ensures r == NULL || (UsedAt(slots, r) && slots[r].key == k)
    decreases fuel
  {
    if fuel > 0 && 0 <= i < |slots| && slots[i].Used? then
      if slots[i].key == k then i else FindFrom(slots, slots[i].next, k, fuel - 1)
    else NULL
  }

  /** `get_entry`: the walk starts at the key's home slot. */
  function Find(slots: seq<Slot>, k: Key): (r: int)
    requires |slots| > 0
    ensures r == NULL || (UsedAt(slots, r) && slots[r].key == k)
  {
    FindFrom(slots, Home(k, |slots|), k, |slots|)
  }

  /** `table_create` for a positive size. */
  function Create(n: int): Layout
    requires n > 0
  {
    Layout(seq(n, _ => Free), n - 1, 0, 0)
  }

  function Descend(slots: seq<Slot>, c: int): (r: int)
    ensures r <= c
    ensures !UsedAt(slots, r)
    decreases c
  {
    if c >= 0 && UsedAt(slots, c) then Descend(slots, c - 1) else c
  }

  /** `atualize_next` */
  function Advance(l: Layout): Layout {
    if l.filled == |l.slots| then l else l.(cursor := Descend(l.slots, l.cursor))
  }

  function Settle(l: Layout, i: int, k: Key, v: Data): Layout
    requires 0 <= i < |l.slots|
  {
    Advance(l.(slots := l.slots[i := Used(k, v, NULL)], filled := l.filled + 1))
  }

  /** The chain through slot `e` continues at slot `c`. */
  function Link(slots: seq<Slot>, e: int, c: int): seq<Slot>
    requires UsedAt(slots, e)
  {
    slots[e := slots[e].(next := c)]
  }

  /** What the C code needs not to index outside the array. */
  predicate InBounds(l: Layout) {
    |l.slots| > 0 && 0 <= l.cursor < |l.slots|
  }

  /** The last slot of the chain a key with home `h` belongs to. */
  function Tail(slots: seq<Slot>, h: int): (e: int)
    requires UsedAt(slots, h)
    ensures UsedAt(slots, e)
  {
    var c := Chain(slots, h, |slots|);
    c[|c| - 1]
  }

  /** `table_put`: the new table, and whether the key went in. */
  function Put(l: Layout, k: Key, v: Data): (r: (Layout, bool))
    requires InBounds(l)
  {
    var h := Home(k, |l.slots|);
    if l.filled == |l.slots| then (l, false)
    else if l.slots[h].Free? then (Settle(l, h, k, v), true)
    else if l.slots[h].key == k then (l, false)
    else
      var l1 := l.(collisions := l.collisions + 1);
      if Find(l.slots, k) != NULL then (l1, false)
      else (Settle(l1.(slots := Link(l.slots, Tail(l.slots, h), l.cursor)), l.cursor, k, v), true)
  }

  /** `table_update` */
  function Update(l: Layout, k: Key, v: Data): (Layout, bool)
    requires InBounds(l)
  {
    var i := Find(l.slots, k);
    if i == NULL then (l, false)
    else (l.(slots := l.slots[i := l.slots[i].(value := v)]), true)
  }

  /** `table_get`; None is the NULL it returns for an absent key. */
  function Get(l: Layout, k: Key): Option<Data>
    requires InBounds(l)
  {
    var i := Find(l.slots, k);
    if i == NULL then None else Some(l.slots[i].value)
  }

  /** `table_get_keys` over the slots below `j`: ascending slots. */
  function KeysBelow(slots: seq<Slot>, j: int): seq<Key>
    requires 0 <= j <= |slots|
  {
    if j == 0 then []
    else KeysBelow(slots, j - 1) + (if slots[j - 1].Used? then [slots[j - 1].key] else [])
  }

  datatype Pair = Pair(key: Key, value: Data)

  /** `get_tbl_keys` over the slots below `j`: descending slots. */
  function PairsBelow(slots: seq<Slot>, j: int): seq<Pair>
    requires 0 <= j <= |slots|
  {
    if j == 0 then []
    else (if slots[j - 1].Used? then [Pair(slots[j - 1].key, slots[j - 1].value)] else [])
         + PairsBelow(slots, j - 1)
  }

  /** The bindings held by the slots below `j`. */
  function MapBelow(slots: seq<Slot>, j: int): map<Key, Data>
    requires 0 <= j <= |slots|
  {
    if j == 0 then map[]
    else if slots[j - 1].Used? then MapBelow(slots, j - 1)[slots[j - 1].key := slots[j - 1].value]
    else MapBelow(slots, j - 1)
  }

  /** The meaning of a table. */
  function Contents(l: Layout): map<Key, Data> {
    MapBelow(l.slots, |l.slots|)
  }

  function Capacity(l: Layout): int {
    |l.slots|
  }

  function KeyList(l: Layout): seq<Key> {
    KeysBelow(l.slots, |l.slots|)
  }

  function PairList(l: Layout): seq<Pair> {
    PairsBelow(l.slots, |l.slots|)
  }
}
