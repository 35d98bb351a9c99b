/** `invoke` of `source/table-skel.c`: one request on the server's vector of tables. */
module Dispatch {
  import opened Bytes
  import opened Hashing
  import opened Messages
  import opened Coalesced
  import opened CoalescedInvariant
  import opened CoalescedMap

  /** The reserved key of a get that asks for all keys. */
  const ALL_KEYS: CString := [42]

  /** A C `int` result. */
  function Wrap32(x: int): Int32 {
    (x + 0x8000_0000) % 0x1_0000_0000 - 0x8000_0000
  }

  /** It is the number itself if it fits, and else a multiple of 2 to the power of 32 away. */
  lemma Wrap32Is(x: int) returns (turns: int)
    ensures Wrap32(x) == x + turns * 0x1_0000_0000
    ensures -0x8000_0000 <= x < 0x8000_0000 ==> turns == 0
  {
    turns := -((x + 0x8000_0000) / 0x1_0000_0000);
  }

  /** The keys `invoke` hands to the hash are ones it can index with. */
  predicate Hashable(m: Message) {
    && ((m.opcode == OC_PUT || m.opcode == OC_UPDATE) && m.content.Entry? ==> Placeable(m.content.key))
    && (m.opcode == OC_GET && m.content.KeyText? ==> Placeable(m.content.text))
  }

  /** Any message whose keys are of bytes 1 to 127 is one. */
  lemma AsciiIsHashable(m: Message)
    requires m.content.Entry? ==> forall i :: 0 <= i < |m.content.key| ==> 1 <= m.content.key[i] < 128
    requires m.content.KeyText? ==> forall i :: 0 <= i < |m.content.text| ==> 1 <= m.content.text[i] < 128
    ensures Hashable(m)
  {
    if m.content.Entry? {
      AsciiIsKey(m.content.key);
    } else if m.content.KeyText? {
      AsciiIsKey(m.content.text);
    }
  }

  predicate Servable(ts: seq<Layout>, m: Message) {
    && 0 <= m.tableNum && Hashable(m)
    && forall i :: 0 <= i < |ts| ==> InBounds(ts[i])
  }

  function Reply(m: Message, c: Content): Message
    requires m.opcode < 0x7FFF
  {
    Message(m.opcode + 1, m.tableNum, c)
  }

  function Texts(ks: seq<Key>): (r: seq<CString>)
    ensures r == ks
  {
    if ks == [] then [] else [ks[0]] + Texts(ks[1..])
  }

  /** One request on the table it addresses. */
  function InvokeOn(t: Layout, m: Message): (Layout, Message)
    requires InBounds(t) && Hashable(m)
  {
    var c := m.content;
    if m.opcode == OC_PUT then
      if !c.Entry? then (t, ERROR_REPLY)
      else
        var (t1, ok) := Put(t, c.key, c.value);
        (t1, if ok then Reply(m, Result(0)) else ERROR_REPLY)
    else if m.opcode == OC_GET then
      if !c.KeyText? then (t, ERROR_REPLY)
      else if c.text == ALL_KEYS then (t, Reply(m, KeyTexts(Texts(KeyList(t)))))
      else (t, Reply(m, Value(Get(t, c.text))))
    else if m.opcode == OC_UPDATE then
      if !c.Entry? then (t, ERROR_REPLY)
      else
        var (t1, ok) := Update(t, c.key, c.value);
        (t1, if ok then Reply(m, Result(0)) else ERROR_REPLY)
    else if m.opcode == OC_SIZE then (t, Reply(m, Result(Wrap32(t.filled))))
    else if m.opcode == OC_COLLS then (t, Reply(m, Result(Wrap32(t.collisions))))
    else (t, ERROR_REPLY)
  }

  function Invoke(ts: seq<Layout>, m: Message): (r: (seq<Layout>, Message))
    requires Servable(ts, m)
    ensures |r.0| == |ts|
  {
    if m.tableNum >= |ts| then (ts, ERROR_REPLY)
    else
      var (t, reply) := InvokeOn(ts[m.tableNum], m);
      (ts[m.tableNum := t], reply)
  }

  // ----- the service of bounded maps it refines -----

  type Store = map<Key, Data>

  function MapsOf(ts: seq<Layout>): (ms: seq<Store>)
    ensures |ms| == |ts| && forall i :: 0 <= i < |ts| ==> ms[i] == Contents(ts[i])
  {
    if ts == [] then [] else [Contents(ts[0])] + MapsOf(ts[1..])
  }

  function CapsOf(ts: seq<Layout>): (cs: seq<int>)
    ensures |cs| == |ts| && forall i :: 0 <= i < |ts| ==> cs[i] == Capacity(ts[i])
  {
    if ts == [] then [] else [Capacity(ts[0])] + CapsOf(ts[1..])
  }

  ghost predicate AllValid(ts: seq<Layout>) {
    forall i :: 0 <= i < |ts| ==> Valid(ts[i])
  }

  /** Whether a put or update takes effect on a map of capacity `cap`. */
  predicate Stores(store: Store, cap: int, m: Message)
    requires Hashable(m)
  {
    && m.content.Entry?
    && ((m.opcode == OC_PUT && |store| < cap && m.content.key !in store)
        || (m.opcode == OC_UPDATE && m.content.key in store))
  }

  function EffectOn(store: Store, cap: int, m: Message): Store
    requires Hashable(m)
  {
    if Stores(store, cap, m) then store[m.content.key := m.content.value] else store
  }

  /** What the request makes of the maps. */
  function Effect(stores: seq<Store>, caps: seq<int>, m: Message): (r: seq<Store>)
    requires 0 <= m.tableNum && Hashable(m) && |stores| == |caps|
    ensures |r| == |stores|
  {
    if m.tableNum >= |stores| then stores
    else stores[m.tableNum := EffectOn(stores[m.tableNum], caps[m.tableNum], m)]
  }

  /** What a caller of the maps may be told. Only the collision counter and the order of listed keys
      are not determined by the maps. */
  ghost predicate AnswersOn(store: Store, cap: int, m: Message, reply: Message)
    requires Hashable(m)
  {
    var c := m.content;
    if (m.opcode == OC_PUT || m.opcode == OC_UPDATE) && c.Entry? then
      reply == if Stores(store, cap, m) then Reply(m, Result(0)) else ERROR_REPLY
    else if m.opcode == OC_GET && c.KeyText? then
      if c.text == ALL_KEYS then
        && reply.opcode == OC_GET + 1 && reply.tableNum == m.tableNum && reply.content.KeyTexts?
        && NoRepeat(reply.content.texts) && forall k: Key :: k in reply.content.texts <==> k in store
      else reply == Reply(m, Value(if c.text in store then Some(store[c.text]) else None))
    else if m.opcode == OC_SIZE then reply == Reply(m, Result(Wrap32(|store|)))
    else if m.opcode == OC_COLLS then
      reply.opcode == OC_COLLS + 1 && reply.tableNum == m.tableNum && reply.content.Result?
    else reply == ERROR_REPLY
  }

  ghost predicate Answers(stores: seq<Store>, caps: seq<int>, m: Message, reply: Message)
    requires 0 <= m.tableNum && Hashable(m) && |stores| == |caps|
  {
    if m.tableNum >= |stores| then reply == ERROR_REPLY
    else AnswersOn(stores[m.tableNum], caps[m.tableNum], m, reply)
  }

  lemma InvokeOnRefines(t: Layout, m: Message)
    requires Valid(t) && Hashable(m)
    ensures var (t1, reply) := InvokeOn(t, m);
      && Valid(t1) && Capacity(t1) == Capacity(t)
      && Contents(t1) == EffectOn(Contents(t), Capacity(t), m)
      && AnswersOn(Contents(t), Capacity(t), m, reply)
      && (reply.opcode == OC_RT_ERROR ==> t1.(collisions := t.collisions) == t)
  {
    var c := m.content;
    if m.opcode == OC_PUT {
      if c.Entry? { PutRefines(t, c.key, c.value); }
    } else if m.opcode == OC_UPDATE {
      if c.Entry? { UpdateRefines(t, c.key, c.value); }
    } else if m.opcode == OC_GET {
      if c.KeyText? {
        GetRefines(t, c.text);
        EnumerationRefines(t);
      }
    } else {
      SizeRefines(t);
    }
  }

  /** A request does to the maps what it does to the service of maps, and is answered as there. */
  lemma InvokeRefines(ts: seq<Layout>, m: Message)
    requires AllValid(ts) && 0 <= m.tableNum && Hashable(m)
    ensures Servable(ts, m)
    ensures AllValid(Invoke(ts, m).0) && CapsOf(Invoke(ts, m).0) == CapsOf(ts)
    ensures MapsOf(Invoke(ts, m).0) == Effect(MapsOf(ts), CapsOf(ts), m)
    ensures Answers(MapsOf(ts), CapsOf(ts), m, Invoke(ts, m).1)
  {
    ValidServable(ts, m);
    if m.tableNum < |ts| {
      var i := m.tableNum;
      InvokeOnRefines(ts[i], m);
      var t := InvokeOn(ts[i], m).0;
      assert Invoke(ts, m).0 == ts[i := t];
      MapsUpdated(ts, i, t);
      assert CapsOf(ts)[i := Capacity(t)] == CapsOf(ts);
    }
  }

  /** The replies as numbers and bytes: 41 to a put that finds room and a new key, 21 to an update of a key
      that is there, 31 to a get, which lists all keys for "*", 11 and 51 with the count asked for if it fits
      an `int`, and to anything else the error 99 of table 0 with the result -1. */
  lemma RepliesInNumbers(ts: seq<Layout>, m: Message)
    requires AllValid(ts) && 0 <= m.tableNum < |ts| && Hashable(m)
    ensures Servable(ts, m)
    ensures
      var t, n, c := ts[m.tableNum], m.tableNum, m.content;
      var store, after, reply := Contents(t), Contents(Invoke(ts, m).0[n]), Invoke(ts, m).1;
      if m.opcode == 40 && c.Entry? then
        if |store| < Capacity(t) && c.key !in store
        then reply == Message(41, n, Result(0)) && after == store[c.key := c.value]
        else reply == Message(99, 0, Result(-1)) && after == store
      else if m.opcode == 20 && c.Entry? then
        if c.key in store
        then reply == Message(21, n, Result(0)) && after == store[c.key := c.value]
        else reply == Message(99, 0, Result(-1)) && after == store
      else
        && after == store
        && if m.opcode == 30 && c.KeyText? && c.text == [42] then
             && reply.opcode == 31 && reply.tableNum == n && reply.content.KeyTexts?
             && NoRepeat(reply.content.texts) && forall k: Key :: k in reply.content.texts <==> k in store
           else if m.opcode == 30 && c.KeyText? then
             reply == Message(31, n, Value(if c.text in store then Some(store[c.text]) else None))
           else if m.opcode == 10 then |store| < 0x8000_0000 ==> reply == Message(11, n, Result(|store|))
           else if m.opcode == 50 then
             -0x8000_0000 <= t.collisions < 0x8000_0000 ==> reply == Message(51, n, Result(t.collisions))
           else reply == Message(99, 0, Result(-1))
  {
    hide Contents, Put, Update, Get, KeyList, Valid, AllValid;
    InvokeRefines(ts, m);
    var t := ts[m.tableNum];
    assert MapsOf(ts)[m.tableNum] == Contents(t) && CapsOf(ts)[m.tableNum] == Capacity(t);
    assert Contents(Invoke(ts, m).0[m.tableNum]) == MapsOf(Invoke(ts, m).0)[m.tableNum];
  }

  /** A table number with no table behind it gets the error, and nothing changes. */
  lemma NoSuchTable(ts: seq<Layout>, m: Message)
    requires Servable(ts, m) && m.tableNum >= |ts|
    ensures Invoke(ts, m) == (ts, Message(99, 0, Result(-1)))
  {
  }

  /** A request touches the addressed table only, and one answered with an error leaves everything
      but a collision counter alone. */
  lemma InvokeFrame(ts: seq<Layout>, m: Message, i: int)
    requires AllValid(ts) && Servable(ts, m) && 0 <= i < |ts|
    ensures i != m.tableNum ==> Invoke(ts, m).0[i] == ts[i]
    ensures Invoke(ts, m).1.opcode == OC_RT_ERROR ==>
      Invoke(ts, m).0[i].(collisions := ts[i].collisions) == ts[i]
  {
    if i == m.tableNum {
      InvokeOnRefines(ts[i], m);
    }
  }

  lemma ValidServable(ts: seq<Layout>, m: Message)
    requires AllValid(ts) && 0 <= m.tableNum && Hashable(m)
    ensures Servable(ts, m)
  {
    forall i | 0 <= i < |ts| ensures InBounds(ts[i]) {
      ValidInBounds(ts[i]);
    }
  }

  lemma MapsUpdated(ts: seq<Layout>, i: int, t: Layout)
    requires 0 <= i < |ts|
    ensures MapsOf(ts[i := t]) == MapsOf(ts)[i := Contents(t)]
    ensures CapsOf(ts[i := t]) == CapsOf(ts)[i := Capacity(t)]
  {
  }

  lemma ValidInBounds(t: Layout)
    requires Valid(t)
    ensures InBounds(t)
  {
    var stamp :| Inv(t, stamp);
  }

  // ----- request sequences -----

  ghost predicate Requests(ms: seq<Message>) {
    forall i :: 0 <= i < |ms| ==> 0 <= ms[i].tableNum && Hashable(ms[i])
  }

  function Serve(ts: seq<Layout>, ms: seq<Message>): (seq<Layout>, seq<Message>)
    decreases |ms|
  {
    if ms == [] || !Servable(ts, ms[0]) then (ts, [])
    else
      var (ts1, reply) := Invoke(ts, ms[0]);
      var (ts2, replies) := Serve(ts1, ms[1..]);
      (ts2, [reply] + replies)
  }

  /** The maps after the requests. */
  ghost function Replay(stores: seq<Store>, caps: seq<int>, ms: seq<Message>): (r: seq<Store>)
    requires |stores| == |caps| && Requests(ms)
    ensures |r| == |stores|
    decreases |ms|
  {
    if ms == [] then stores else Replay(Effect(stores, caps, ms[0]), caps, ms[1..])
  }

  ghost predicate AllAnswered(stores: seq<Store>, caps: seq<int>, ms: seq<Message>, replies: seq<Message>)
    requires |stores| == |caps| && Requests(ms)
    decreases |ms|
  {
    if ms == [] then replies == []
    else
      && replies != []
      && Answers(stores, caps, ms[0], replies[0])
      && AllAnswered(Effect(stores, caps, ms[0]), caps, ms[1..], replies[1..])
  }

  /** Any sequence of requests is served by the heap tables as by the service of maps. */
  lemma {:induction false} ServeRefines(ts: seq<Layout>, ms: seq<Message>)
    requires AllValid(ts) && Requests(ms)
    ensures AllValid(Serve(ts, ms).0) && CapsOf(Serve(ts, ms).0) == CapsOf(ts)
    ensures MapsOf(Serve(ts, ms).0) == Replay(MapsOf(ts), CapsOf(ts), ms)
    ensures AllAnswered(MapsOf(ts), CapsOf(ts), ms, Serve(ts, ms).1)
    decreases |ms|
  {
    if ms != [] {
      InvokeRefines(ts, ms[0]);
      var (ts1, reply) := Invoke(ts, ms[0]);
      ServeRefines(ts1, ms[1..]);
    }
  }
}
