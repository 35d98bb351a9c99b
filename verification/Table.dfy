/** The table of `source/table.c`, updated in place, against the description in `Coalesced`. */
module Tables {
  import opened Bytes
  import opened Hashing
  import opened Coalesced
  import CoalescedInvariant
  import CoalescedPut
  import CoalescedMap

  class Table {
    const entries: array<Slot>
    const datasize: int
    var next: int
    var filled: int
    var collisions: int

    ghost function Model(): Layout
      reads this, entries
    {
      Layout(entries[..], next, filled, collisions)
    }

    ghost predicate Valid()
      reads this, entries
    {
      entries.Length == datasize && CoalescedInvariant.Valid(Model())
    }

    constructor (n: int)
      requires n > 0
      ensures Valid() && fresh(entries) && Model() == Coalesced.Create(n)
    {
      entries := new Slot[n](_ => Free);
      datasize := n;
      next := n - 1;
      filled := 0;
      collisions := 0;
      new;
      assert entries[..] == Coalesced.Create(n).slots;
      CoalescedMap.CreateRefines(n);
    }

    /** No table for a size that is not positive. */
    static method Create(n: int) returns (t: Table?)
      ensures n <= 0 <==> t == null
      ensures t != null ==> fresh(t) && fresh(t.entries) && t.Valid() && t.Model() == Coalesced.Create(n)
    {
      if n > 0 {
        t := new Table(n);
      } else {
        t := null;
      }
    }

    method AdvanceNext()
      requires entries.Length == datasize && InBounds(Model())
      requires filled == datasize || CoalescedPut.FreeUpTo(entries[..], next)
      modifies this`next
      ensures Model() == Advance(old(Model()))
    {
      if filled == datasize {
        return;
      }
      ghost var free :| 0 <= free <= next && free < datasize && entries[free].Free?;
      while entries[next].Used?
        invariant free <= next <= old(next)
        invariant Descend(entries[..], next) == Descend(entries[..], old(next))
        decreases next
      {
        next := next - 1;
      }
    }

    method GetEntry(key: Key) returns (r: int)
      requires Valid()
      ensures r == Find(entries[..], key)
      ensures r == NULL || (0 <= r < entries.Length && entries[r].Used? && entries[r].key == key)
    {
      ghost var slots := entries[..];
      ghost var stamp :| CoalescedInvariant.Inv(Model(), stamp);
      var khash := Hash(key, datasize);
      var cur := khash;
      if entries[cur].Free? {
        return NULL;
      }
      ghost var fuel: nat := |slots|;
      CoalescedInvariant.FilledBounds(Model());
      assert UsedAt(slots, cur);
      if entries[cur].key != key {
        while entries[cur].next != NULL
          invariant UsedAt(slots, cur) && filled - stamp[cur] <= fuel
          invariant FindFrom(slots, cur, key, fuel) == Find(slots, key)
          decreases fuel
        {
          if entries[cur].key == key {
            return cur;
          }
          assert UsedAt(slots, slots[cur].next);
          cur := entries[cur].next;
          fuel := fuel - 1;
        }
      }
      assert UsedAt(slots, cur);
      if entries[cur].key != key {
        return NULL;
      }
      return cur;
    }

    /** The loop of `table_put`: to the end of the chain through `home`, watching for the key. */
    method ChainEnd(home: int, key: Key, ghost stamp: seq<int>) returns (found: bool, e: int)
      requires CoalescedInvariant.Linked(entries[..], stamp, filled) && filled <= entries.Length
      requires UsedAt(entries[..], home) && entries[home].key != key
      ensures found <==> FindFrom(entries[..], home, key, entries.Length) != NULL
      ensures !found ==> e == Tail(entries[..], home)
    {
      ghost var slots := entries[..];
      ghost var fuel: nat := |slots|;
      e := home;
      while entries[e].next != NULL
        invariant UsedAt(slots, e) && filled - stamp[e] <= fuel
        invariant slots[e].key != key
        invariant FindFrom(slots, e, key, fuel) == FindFrom(slots, home, key, |slots|)
        invariant Last(Chain(slots, e, fuel)) == Tail(slots, home)
        decreases fuel
      {
        assert UsedAt(slots, slots[e].next);
        e := entries[e].next;
        fuel := fuel - 1;
        if entries[e].key == key {
          return true, e;
        }
      }
      assert Chain(slots, e, fuel) == [e];
      return false, e;
    }

    /** Slot `i` takes the key and value, and the table counts it. */
    method StoreAt(i: int, key: Key, value: Data)
      requires entries.Length == datasize && InBounds(Model()) && 0 <= filled && 0 <= i < datasize
      requires CoalescedPut.HasRoom(Model(), i, key, value)
      modifies entries, this`filled, this`next
      ensures Model() == Settle(old(Model()), i, key, value)
    {
      ghost var l := Model();
      entries[i] := Used(key, value, NULL);
      filled := filled + 1;
      assert Model() == l.(slots := l.slots[i := Used(key, value, NULL)], filled := l.filled + 1);
      if filled != 0 {
        AdvanceNext();
      }
    }

    /** The branch of `table_put` for a home slot that holds another key. */
    method PutBehind(home: int, key: Key, value: Data, ghost stamp: seq<int>) returns (r: int)
      requires entries.Length == datasize && InBounds(Model()) && 0 <= filled < datasize
      requires CoalescedInvariant.Linked(entries[..], stamp, filled) && entries[next].Free?
      requires home == Home(key, datasize) && entries[home].Used? && entries[home].key != key
      requires CoalescedPut.HasRoom(CoalescedPut.Linking(Model(), key), next, key, value)
      modifies this, entries
      ensures var l := old(Model());
        (Model(), r) == if Find(l.slots, key) != NULL then (l.(collisions := l.collisions + 1), -1)
                        else (Settle(CoalescedPut.Linking(l, key), l.cursor, key, value), 0)
    {
      ghost var l := Model();
      collisions := collisions + 1;
      var found, e := ChainEnd(home, key, stamp);
      if found {
        return -1;
      }
      entries[e] := entries[e].(next := next);
      assert Model() == CoalescedPut.Linking(l, key);
      StoreAt(next, key, value);
      return 0;
    }

    method Put(key: Key, value: Data) returns (r: int)
      requires Valid()
      modifies this, entries
      ensures (Model(), r == 0) == Coalesced.Put(old(Model()), key, value)
      ensures Valid()
      ensures r == 0 || r == -1
    {
      CoalescedPut.PutValid(Model(), key, value);
      var khash := Hash(key, datasize);
      if filled == datasize {
        return -1;
      }
      ghost var stamp := CoalescedPut.Order(Model(), key, value);
      if entries[khash].Free? {
        StoreAt(khash, key, value);
        return 0;
      } else {
        if entries[khash].key == key {
          return -1;
        }
        r := PutBehind(khash, key, value, stamp);
      }
    }

    method Update(key: Key, value: Data) returns (r: int)
      requires Valid()
      modifies entries
      ensures Valid() && (Model(), r == 0) == Coalesced.Update(old(Model()), key, value)
      ensures r == 0 || r == -1
    {
      CoalescedMap.UpdateRefines(Model(), key, value);
      var i := GetEntry(key);
      if i == NULL {
        return -1;
      }
      entries[i] := entries[i].(value := value);
      return 0;
    }

    method Get(key: Key) returns (r: Option<Data>)
      requires Valid()
      ensures r == Coalesced.Get(Model(), key)
      ensures r == if key in Contents(Model()) then Some(Contents(Model())[key]) else None
    {
      CoalescedMap.GetRefines(Model(), key);
      var i := GetEntry(key);
      r := None;
      if i != NULL {
        r := Some(entries[i].value);
      }
    }

    method Size() returns (n: int)
      requires Valid()
      ensures n == |Contents(Model())|
    {
      CoalescedMap.SizeRefines(Model());
      return filled;
    }

    method GetKeys() returns (keys: seq<Key>)
      requires Valid()
      ensures keys == KeyList(Model())
      ensures NoRepeat(keys) && forall k :: k in keys <==> k in Contents(Model())
    {
      keys := [];
      for i := 0 to datasize
        invariant keys == KeysBelow(entries[..], i)
      {
        if entries[i].Used? {
          keys := keys + [entries[i].key];
        }
      }
      CoalescedMap.EnumerationRefines(Model());
    }
  }

  function Last(c: seq<int>): int
  {
    if c == [] then NULL else c[|c| - 1]
  }
}
