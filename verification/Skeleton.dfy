/** The vector of tables of `source/table-skel.c`, updated in place. */
module Skeletons {
  import opened Bytes
  import opened Messages
  import opened Coalesced
  import opened Dispatch
  import opened StateTransfer
  import opened TableSizes
  import opened Tables

  ghost function ModelsOf(ts: seq<Table>): (ls: seq<Layout>)
    reads ts, set t | t in ts :: t.entries
    ensures |ls| == |ts| && forall i :: 0 <= i < |ts| ==> ls[i] == ts[i].Model()
  {
    if ts == [] then [] else [ts[0].Model()] + ModelsOf(ts[1..])
  }

  /** Separate tables with separate arrays. */
  ghost predicate Separate(ts: seq<Table>) {
    forall i, j :: 0 <= i < j < |ts| ==> ts[i] != ts[j] && ts[i].entries != ts[j].entries
  }

  lemma SeparateSnoc(ts: seq<Table>, t: Table)
    requires Separate(ts) && forall i :: 0 <= i < |ts| ==> ts[i] != t && ts[i].entries != t.entries
    ensures Separate(ts + [t])
  {
  }

  lemma UpdatedAt<T>(before: seq<T>, after: seq<T>, n: int)
    requires |before| == |after| && 0 <= n < |after|
    requires forall j :: 0 <= j < |after| && j != n ==> after[j] == before[j]
    ensures after == before[n := after[n]]
  {
  }

  class Skeleton {
    var tables: seq<Table>

    ghost function Repr(): set<object>
      reads this
    {
      (set t: Table | t in tables :: t as object) + (set t: Table | t in tables :: t.entries as object)
    }

    ghost function Models(): seq<Layout>
      reads this, tables, set t | t in tables :: t.entries
    {
      ModelsOf(tables)
    }

    ghost predicate Valid()
      reads this, tables, set t | t in tables :: t.entries
    {
      Separate(tables) && forall i :: 0 <= i < |tables| ==> tables[i].Valid()
    }

    constructor ()
      ensures Valid() && Models() == [] && Repr() == {}
    {
      tables := [];
    }

    /** `table_skel_init`: one table for each size, or -1 at the first size `table_create` refuses. */
    method Init(sizes: seq<CString>) returns (r: int)
      modifies this
      ensures r == 0 || r == -1
      ensures r == 0 <==> SizesAccepted(sizes)
      ensures r == 0 ==> Valid() && fresh(Repr()) && Models() == CreateAll(sizes)
    {
      var created, ok := CreateTables(sizes);
      if !ok {
        return -1;
      }
      tables := created;
      assert ModelsOf(created) == CreateAll(sizes);
      return 0;
    }

    static method CreateTables(sizes: seq<CString>) returns (created: seq<Table>, ok: bool)
      ensures ok <==> SizesAccepted(sizes)
      ensures ok ==> |created| == |sizes| && Separate(created)
      ensures ok ==> forall j :: 0 <= j < |created| ==>
        && fresh(created[j]) && fresh(created[j].entries)
        && created[j].Valid() && created[j].Model() == Create(Atoi(sizes[j]))
    {
      hide Atoi;
      created := [];
      var i := 0;
      while i < |sizes|
        invariant 0 <= i <= |sizes| && |created| == i
        invariant forall j :: 0 <= j < i ==> Atoi(sizes[j]) > 0
        invariant Separate(created)
        invariant forall j :: 0 <= j < i ==>
          && fresh(created[j]) && fresh(created[j].entries)
          && created[j].Valid() && created[j].Model() == Create(Atoi(sizes[j]))
      {
        var t := Table.Create(Atoi(sizes[i]));
        if t == null {
          return created, false;
        }
        SeparateSnoc(created, t);
        created := created + [t];
        i := i + 1;
      }
      ok := true;
    }

    /** `invoke` */
    method Invoke(m: Message) returns (reply: Message)
      requires Valid() && Servable(Models(), m)
      modifies Repr()
      ensures Valid() && (Models(), reply) == Dispatch.Invoke(old(Models()), m)
    {
      hide InvokeOn;
      if m.tableNum >= |tables| {
        return ERROR_REPLY;
      }
      reply := InvokeAt(m.tableNum, m);
    }

    method InvokeAt(n: int, m: Message) returns (reply: Message)
      requires Valid() && 0 <= n < |tables| && Hashable(m) && InBounds(Models()[n])
      modifies Repr()
      ensures Valid() && (Models()[n], reply) == InvokeOn(old(Models())[n], m)
      ensures Models() == old(Models())[n := Models()[n]]
    {
      hide InvokeOn;
      ghost var before := Models();
      var t := tables[n];
      assert before[n] == t.Model();
      reply := InvokeOnTable(t, m);
      forall j | 0 <= j < |tables| && j != n ensures tables[j].Valid() && tables[j].Model() == before[j] {
        assert tables[j] != t && tables[j].entries != t.entries;
      }
      UpdatedAt(before, Models(), n);
    }

    static method InvokeOnTable(t: Table, m: Message) returns (reply: Message)
      requires t.Valid() && Hashable(m) && InBounds(t.Model())
      modifies t, t.entries
      ensures t.Valid() && (t.Model(), reply) == InvokeOn(old(t.Model()), m)
    {
      reply := ERROR_REPLY;
      if m.opcode == OC_PUT {
        if m.content.Entry? {
          var result := t.Put(m.content.key, m.content.value);
          if result == 0 { reply := Reply(m, Result(0)); }
        }
      } else if m.opcode == OC_GET {
        if m.content.KeyText? {
          if m.content.text == ALL_KEYS {
            var keys := t.GetKeys();
            reply := Reply(m, KeyTexts(Texts(keys)));
          } else {
            var value := t.Get(m.content.text);
            reply := Reply(m, Value(value));
          }
        }
      } else if m.opcode == OC_UPDATE {
        if m.content.Entry? {
          var result := t.Update(m.content.key, m.content.value);
          if result == 0 { reply := Reply(m, Result(0)); }
        }
      } else if m.opcode == OC_SIZE {
        reply := Reply(m, Result(Wrap32(t.filled)));
      } else if m.opcode == OC_COLLS {
        reply := Reply(m, Result(Wrap32(t.collisions)));
      }
    }

    /** `get_tbl_keys`: the stored entries of a table, from its highest slot down. */
    method EntriesOf(n: int) returns (entries: seq<Pair>)
      requires Valid() && 0 <= n < |tables|
      ensures entries == PairList(Models()[n])
    {
      var t := tables[n];
      ghost var slots := t.entries[..];
      entries := [];
      var i := t.datasize - 1;
      while i >= 0
        invariant -1 <= i < t.datasize
        invariant entries + PairsBelow(slots, i + 1) == PairsBelow(slots, |slots|)
      {
        if t.entries[i].Used? {
          Assoc(entries, [Pair(slots[i].key, slots[i].value)], PairsBelow(slots, i));
          entries := entries + [Pair(t.entries[i].key, t.entries[i].value)];
        } else {
          assert PairsBelow(slots, i + 1) == PairsBelow(slots, i);
        }
        i := i - 1;
      }
    }
  }
}
