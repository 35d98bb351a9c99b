/** A coalesced table refines a bounded map: what put, update, get, size and the two enumerations
    do to the contents of any valid table. */
module CoalescedMap {
  import opened Bytes
  import opened Hashing
  import opened Coalesced
  import opened CoalescedInvariant
  import opened CoalescedPut

  // ----- contents of a prefix of the array -----

  lemma {:induction false} BelowBinding(slots: seq<Slot>, j: int, i: int)
    requires DistinctKeys(slots) && 0 <= i < j <= |slots| && UsedAt(slots, i)
    ensures slots[i].key in MapBelow(slots, j) && MapBelow(slots, j)[slots[i].key] == slots[i].value
  {
    if i < j - 1 {
      BelowBinding(slots, j - 1, i);
      if UsedAt(slots, j - 1) {
        assert slots[j - 1].key != slots[i].key;
      }
    }
  }

  lemma {:induction false} BelowHolder(slots: seq<Slot>, j: int, k: Key) returns (i: int)
    requires 0 <= j <= |slots| && k in MapBelow(slots, j)
    ensures 0 <= i < j && UsedAt(slots, i) && slots[i].key == k
  {
    if slots[j - 1].Used? && slots[j - 1].key == k {
      i := j - 1;
    } else {
      i := BelowHolder(slots, j - 1, k);
    }
  }

  /** A key in slot `j` is not bound by the slots below. */
  lemma FreshAbove(slots: seq<Slot>, j: int)
    requires DistinctKeys(slots) && UsedAt(slots, j)
    ensures slots[j].key !in MapBelow(slots, j)
  {
    if slots[j].key in MapBelow(slots, j) {
      var i := BelowHolder(slots, j, slots[j].key);
    }
  }

  function UsedBelow(slots: seq<Slot>, j: int): set<int>
    requires 0 <= j <= |slots|
  {
    set i | 0 <= i < j && UsedAt(slots, i)
  }

  lemma UsedBelowSize(slots: seq<Slot>, j: int)
    requires 0 < j <= |slots|
    ensures |UsedBelow(slots, j)| == |UsedBelow(slots, j - 1)| + (if UsedAt(slots, j - 1) then 1 else 0)
  {
    if UsedAt(slots, j - 1) {
      assert UsedBelow(slots, j) == UsedBelow(slots, j - 1) + {j - 1};
    } else {
      assert UsedBelow(slots, j) == UsedBelow(slots, j - 1);
    }
  }

  lemma {:induction false} BelowSize(slots: seq<Slot>, j: int)
    requires DistinctKeys(slots) && 0 <= j <= |slots|
    ensures |MapBelow(slots, j)| == |UsedBelow(slots, j)|
  {
    if j == 0 {
      assert UsedBelow(slots, 0) == {};
    } else {
      BelowSize(slots, j - 1);
      UsedBelowSize(slots, j);
      if UsedAt(slots, j - 1) {
        FreshAbove(slots, j - 1);
      }
    }
  }

  // ----- contents of the whole table -----

  lemma ContentsAt(l: Layout, i: int)
    requires DistinctKeys(l.slots) && UsedAt(l.slots, i)
    ensures l.slots[i].key in Contents(l) && Contents(l)[l.slots[i].key] == l.slots[i].value
  {
    BelowBinding(l.slots, |l.slots|, i);
  }

  lemma ContentsKeys(l: Layout, k: Key)
    requires DistinctKeys(l.slots)
    ensures k in Contents(l) <==> Stored(l.slots, k)
  {
    if k in Contents(l) {
      var i := BelowHolder(l.slots, |l.slots|, k);
    }
    if i :| UsedAt(l.slots, i) && l.slots[i].key == k {
      ContentsAt(l, i);
    }
  }

  /** A map with a binding for each used slot and nothing else is the table's contents. */
  lemma ContentsUnique(l: Layout, m: map<Key, Data>)
    requires DistinctKeys(l.slots)
    requires forall i {:trigger UsedAt(l.slots, i)} :: UsedAt(l.slots, i) ==>
      l.slots[i].key in m && m[l.slots[i].key] == l.slots[i].value
    requires forall k :: k in m ==> Stored(l.slots, k)
    ensures Contents(l) == m
  {
    forall k ensures k in Contents(l) <==> k in m {
      ContentsKeys(l, k);
    }
    forall k | k in m ensures Contents(l)[k] == m[k] {
      var i :| UsedAt(l.slots, i) && l.slots[i].key == k;
      ContentsAt(l, i);
    }
  }

  lemma {:induction false} EmptyBelow(slots: seq<Slot>, j: int)
    requires 0 <= j <= |slots| && forall i :: 0 <= i < |slots| ==> slots[i].Free?
    ensures MapBelow(slots, j) == map[]
  {
    if j > 0 { EmptyBelow(slots, j - 1); }
  }

  /** `table_create` gives a valid, empty table. */
  lemma CreateRefines(n: int)
    requires n > 0
    ensures Valid(Create(n)) && Contents(Create(n)) == map[] && Capacity(Create(n)) == n
  {
    CreateInv(n);
    EmptyBelow(Create(n).slots, n);
  }

  /** `table_size` is the number of bindings, and never exceeds the capacity. */
  lemma SizeRefines(l: Layout)
    requires Valid(l)
    ensures l.filled == |Contents(l)| <= Capacity(l)
  {
    FilledBounds(l);
    BelowSize(l.slots, |l.slots|);
    assert UsedBelow(l.slots, |l.slots|) == Occupied(l.slots);
  }

  /** `table_get` is map lookup. */
  lemma GetRefines(l: Layout, k: Key)
    requires Valid(l)
    ensures Get(l, k) == if k in Contents(l) then Some(Contents(l)[k]) else None
  {
    var stamp :| Inv(l, stamp);
    ContentsKeys(l, k);
    if k in Contents(l) {
      var j :| UsedAt(l.slots, j) && l.slots[j].key == k;
      FindComplete(l, stamp, j);
      ContentsAt(l, j);
    } else {
      FindAbsent(l.slots, k);
    }
  }

  lemma GrowContents(l: Layout, e: int, c: int, k: Key, v: Data)
    requires CanGrow(l.slots, e, c, k) && DistinctKeys(l.slots) && !Stored(l.slots, k)
    requires DistinctKeys(Grow(l.slots, e, c, k, v))
    ensures Contents(l.(slots := Grow(l.slots, e, c, k, v))) == Contents(l)[k := v]
  {
    var grown := l.(slots := Grow(l.slots, e, c, k, v));
    var m := Contents(l)[k := v];
    forall i {:trigger UsedAt(grown.slots, i)} | UsedAt(grown.slots, i)
      ensures grown.slots[i].key in m && m[grown.slots[i].key] == grown.slots[i].value
    {
      if i != c {
        assert UsedAt(l.slots, i);
        ContentsAt(l, i);
      }
    }
    forall k' | k' in m ensures Stored(grown.slots, k') {
      if k' == k {
        assert UsedAt(grown.slots, c);
      } else {
        ContentsKeys(l, k');
        var i :| UsedAt(l.slots, i) && l.slots[i].key == k';
        assert UsedAt(grown.slots, i) && grown.slots[i].key == k';
      }
    }
    ContentsUnique(grown, m);
  }

  /** `table_put` adds exactly the given binding, and succeeds exactly when there is room and the key is new. */
  lemma PutRefines(l: Layout, k: Key, v: Data)
    requires Valid(l)
    ensures Valid(Put(l, k, v).0) && Capacity(Put(l, k, v).0) == Capacity(l)
    ensures Put(l, k, v).1 <==> |Contents(l)| < Capacity(l) && k !in Contents(l)
    ensures Contents(Put(l, k, v).0) == if Put(l, k, v).1 then Contents(l)[k := v] else Contents(l)
    ensures !Put(l, k, v).1 ==> Put(l, k, v).0.(collisions := l.collisions) == l
  {
    var stamp :| Inv(l, stamp);
    SizeRefines(l);
    ContentsKeys(l, k);
    PutInv(l, stamp, k, v);
    if l.filled < |l.slots| && !Stored(l.slots, k) {
      PutAbsent(l, k, v);
      CanPlace(l, stamp, k);
      PlacingStructure(l, stamp, k, v);
      GrowContents(l, LinkFrom(l, k), Placed(l, k), k, v);
    } else {
      PutRejected(l, stamp, k, v);
    }
  }

  // ----- update -----

  /** The same keys in the same slots with the same links. */
  ghost predicate SameShape(a: seq<Slot>, b: seq<Slot>) {
    && |a| == |b|
    && forall i {:trigger UsedAt(a, i)} {:trigger UsedAt(b, i)} :: 0 <= i < |a| ==>
         && (UsedAt(a, i) <==> UsedAt(b, i))
         && (UsedAt(a, i) ==> a[i].key == b[i].key && a[i].next == b[i].next)
  }

  lemma {:induction false} ShapeChain(a: seq<Slot>, b: seq<Slot>, i: int, f: nat)
    requires SameShape(a, b)
    ensures Chain(a, i, f) == Chain(b, i, f)
    decreases f
  {
    assert UsedAt(a, i) <==> UsedAt(b, i);
    if f > 0 && UsedAt(a, i) {
      ShapeChain(a, b, a[i].next, f - 1);
    }
  }

  lemma ShapeTarget(a: seq<Slot>, b: seq<Slot>, j: int)
    requires SameShape(a, b)
    ensures Target(a, j) <==> Target(b, j)
  {
    if i :| UsedAt(a, i) && a[i].next == j {
      assert UsedAt(b, i) && b[i].next == j;
    }
    if i :| UsedAt(b, i) && b[i].next == j {
      assert UsedAt(a, i) && a[i].next == j;
    }
  }

  lemma ShapeForest(a: seq<Slot>, b: seq<Slot>)
    requires SameShape(a, b) && HomeOrTarget(a) && Reachable(a)
    ensures HomeOrTarget(b) && Reachable(b)
  {
    forall j {:trigger HomeAt(b, j)} | UsedAt(b, j) ensures HomeAt(b, j) <==> !Target(b, j) {
      ShapeTarget(a, b, j);
      assert HomeAt(a, j) <==> HomeAt(b, j);
    }
    forall j {:trigger OnOwnChain(b, j)} | UsedAt(b, j) ensures OnOwnChain(b, j) {
      assert UsedAt(a, j) && OnOwnChain(a, j);
      ShapeChain(a, b, Home(a[j].key, |a|), |a|);
    }
  }

  lemma ShapePacked(a: seq<Slot>, b: seq<Slot>)
    requires SameShape(a, b) && Packed(a)
    ensures Packed(b)
  {
    forall i, j | UsedAt(b, i) && !HomeAt(b, i) && i < j < |b| ensures UsedAt(b, j) {
      assert UsedAt(a, i) && !HomeAt(a, i);
      assert UsedAt(a, j);
    }
  }

  lemma ShapeCounted(l: Layout, b: seq<Slot>)
    requires SameShape(l.slots, b) && Counted(l)
    ensures Counted(l.(slots := b))
  {
    assert Occupied(b) == Occupied(l.slots);
    assert Sources(b) == Sources(l.slots);
    assert forall i :: 0 <= i < |b| ==> (HomeAt(b, i) <==> HomeAt(l.slots, i));
    assert Heads(b) == Heads(l.slots);
  }

  lemma ShapeInv(l: Layout, stamp: seq<int>, b: seq<Slot>)
    requires Inv(l, stamp) && SameShape(l.slots, b)
    ensures Inv(l.(slots := b), stamp)
  {
    ShapeForest(l.slots, b);
    ShapePacked(l.slots, b);
    ShapeCounted(l, b);
    assert Linked(b, stamp, l.filled) by {
      forall i {:trigger UsedAt(b, i)} | UsedAt(b, i) && b[i].next != NULL
        ensures 0 <= b[i].next < |b| && b[b[i].next].Used?
      {
        assert UsedAt(l.slots, i);
        assert UsedAt(l.slots, l.slots[i].next) && UsedAt(b, b[i].next);
      }
    }
    if l.filled < |l.slots| {
      assert !UsedAt(l.slots, l.cursor) && !UsedAt(b, l.cursor);
    }
  }

  /** `table_update` succeeds exactly on a stored key and changes only that binding; it moves nothing. */
  lemma UpdateRefines(l: Layout, k: Key, v: Data)
    requires Valid(l)
    ensures Valid(Update(l, k, v).0) && SameShape(l.slots, Update(l, k, v).0.slots)
    ensures Update(l, k, v).0.(slots := l.slots) == l
    ensures Update(l, k, v).1 <==> k in Contents(l)
    ensures Contents(Update(l, k, v).0) == if k in Contents(l) then Contents(l)[k := v] else Contents(l)
    ensures k !in Contents(l) ==> Update(l, k, v).0 == l
  {
    var stamp :| Inv(l, stamp);
    ContentsKeys(l, k);
    if Stored(l.slots, k) {
      FindStored(l, stamp, k);
      var u := Update(l, k, v).0;
      ShapeInv(l, stamp, u.slots);
      UpdateContents(l, k, v);
    } else {
      FindAbsent(l.slots, k);
    }
  }

  lemma UpdateContents(l: Layout, k: Key, v: Data)
    requires InBounds(l) && DistinctKeys(l.slots) && Find(l.slots, k) != NULL
    ensures Contents(Update(l, k, v).0) == Contents(l)[k := v]
  {
    var u := Update(l, k, v).0;
    var m := Contents(l)[k := v];
    var f := Find(l.slots, k);
    assert forall i :: UsedAt(u.slots, i) <==> UsedAt(l.slots, i);
    forall i {:trigger UsedAt(u.slots, i)} | UsedAt(u.slots, i)
      ensures u.slots[i].key in m && m[u.slots[i].key] == u.slots[i].value
    {
      assert UsedAt(l.slots, i) && UsedAt(l.slots, f);
      ContentsAt(l, i);
    }
    forall k' | k' in m ensures Stored(u.slots, k') {
      if k' == k {
        assert UsedAt(u.slots, f);
      } else {
        ContentsKeys(l, k');
        var i :| UsedAt(l.slots, i) && l.slots[i].key == k';
        assert UsedAt(u.slots, i);
      }
    }
    ContentsUnique(u, m);
  }

  // ----- enumeration -----

  function Reverse<T>(s: seq<T>): (r: seq<T>)
    ensures |r| == |s| && forall i :: 0 <= i < |s| ==> r[i] == s[|s| - 1 - i]
  {
    if s == [] then [] else Reverse(s[1..]) + [s[0]]
  }

  function KeysOf(ps: seq<Pair>): (ks: seq<Key>)
    ensures |ks| == |ps| && forall i :: 0 <= i < |ps| ==> ks[i] == ps[i].key
  {
    if ps == [] then [] else [ps[0].key] + KeysOf(ps[1..])
  }

  lemma {:induction false} KeysBelowAll(slots: seq<Slot>, j: int)
    requires DistinctKeys(slots) && 0 <= j <= |slots|
    ensures |KeysBelow(slots, j)| == |MapBelow(slots, j)| && NoRepeat(KeysBelow(slots, j))
    ensures forall k :: k in KeysBelow(slots, j) <==> k in MapBelow(slots, j)
  {
    if j > 0 {
      KeysBelowAll(slots, j - 1);
      if UsedAt(slots, j - 1) {
        FreshAbove(slots, j - 1);
      }
    }
  }

  lemma {:induction false} PairsReversed(slots: seq<Slot>, j: int)
    requires 0 <= j <= |slots|
    ensures KeysOf(PairsBelow(slots, j)) == Reverse(KeysBelow(slots, j))
  {
    if j > 0 {
      PairsReversed(slots, j - 1);
      if slots[j - 1].Used? {
        ReverseSnoc(KeysBelow(slots, j - 1), slots[j - 1].key);
      }
    }
  }

  lemma {:induction false} PairsBound(slots: seq<Slot>, j: int, i: int)
    requires DistinctKeys(slots) && 0 <= j <= |slots| && 0 <= i < |PairsBelow(slots, j)|
    ensures var p := PairsBelow(slots, j)[i]; p.key in MapBelow(slots, j) && MapBelow(slots, j)[p.key] == p.value
  {
    if UsedAt(slots, j - 1) {
      FreshAbove(slots, j - 1);
      if i > 0 {
        PairsBound(slots, j - 1, i - 1);
      }
    } else {
      PairsBound(slots, j - 1, i);
    }
  }

  lemma {:induction false} ReverseSnoc<T>(s: seq<T>, x: T)
    ensures Reverse(s + [x]) == [x] + Reverse(s)
  {
  }

  /** `table_get_keys` and `get_tbl_keys` list every stored key exactly once, one in the reverse of
      the other's order, and the second pairs each key with its value. */
  lemma EnumerationRefines(l: Layout)
    requires Valid(l)
    ensures |KeyList(l)| == |PairList(l)| == l.filled
    ensures NoRepeat(KeyList(l)) && forall k :: k in KeyList(l) <==> k in Contents(l)
    ensures KeysOf(PairList(l)) == Reverse(KeyList(l))
    ensures forall i :: 0 <= i < |PairList(l)| ==>
      PairList(l)[i].key in Contents(l) && Contents(l)[PairList(l)[i].key] == PairList(l)[i].value
  {
    SizeRefines(l);
    KeysBelowAll(l.slots, |l.slots|);
    PairsReversed(l.slots, |l.slots|);
    forall i | 0 <= i < |PairList(l)|
      ensures PairList(l)[i].key in Contents(l) && Contents(l)[PairList(l)[i].key] == PairList(l)[i].value
    {
      PairsBound(l.slots, |l.slots|, i);
    }
  }
}
