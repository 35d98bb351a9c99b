/** What the servers store and send fits the wire: every reply, every forward and every message of a
    state transfer is decoded at the other end as what it was. */
module WireSafety {
  import opened Bytes
  import opened Hashing
  import opened Messages
  import opened Codec
  import opened CodecProofs
  import opened Coalesced
  import opened CoalescedInvariant
  import opened CoalescedMap
  import opened Dispatch
  import opened StateTransfer
  import Replication
  import WireLayout

  /** Keys whose length fits 16 signed bits, in a table whose size fits a C `int`. */
  ghost predicate Portable(l: Layout) {
    Capacity(l) < 0x8000_0000 && forall k :: k in Contents(l) ==> |k| <= 0x7FFF
  }

  ghost predicate AllPortable(ts: seq<Layout>) {
    forall i :: 0 <= i < |ts| ==> Portable(ts[i])
  }

  lemma EffectKeys(stores: seq<Store>, caps: seq<int>, m: Message, i: int, k: Key)
    requires |stores| == |caps| && 0 <= m.tableNum && Hashable(m) && 0 <= i < |stores|
    requires k in Effect(stores, caps, m)[i] && k !in stores[i]
    ensures m.content.Entry? && k == m.content.key
  {
  }

  /** A request off the wire leaves the tables portable. */
  lemma InvokeKeepsPortable(ts: seq<Layout>, m: Message)
    requires AllValid(ts) && AllPortable(ts) && WellFormed(m) && 0 <= m.tableNum && Hashable(m)
    ensures Servable(ts, m) && AllPortable(Invoke(ts, m).0)
  {
    hide Invoke, Effect, Answers, Hashable;
    InvokeRefines(ts, m);
    var ts1 := Invoke(ts, m).0;
    forall i | 0 <= i < |ts1| ensures Portable(ts1[i]) {
      assert CapsOf(ts1)[i] == CapsOf(ts)[i];
      forall k | k in Contents(ts1[i]) ensures |k| <= 0x7FFF {
        assert k in MapsOf(ts1)[i];
        if k !in MapsOf(ts)[i] {
          EffectKeys(MapsOf(ts), CapsOf(ts), m, i, k);
        }
      }
    }
  }

  lemma KeyListFits(l: Layout)
    requires Valid(l) && Portable(l)
    ensures FieldsFit(KeyTexts(Texts(KeyList(l))))
  {
    EnumerationRefines(l);
    SizeRefines(l);
    var ks := KeyList(l);
    forall i | 0 <= i < |ks| ensures |ks[i]| <= 0x7FFF {
      assert ks[i] in ks;
    }
  }

  /** Every reply that has its content is well-formed. */
  lemma ReplyIsWellFormed(ts: seq<Layout>, m: Message)
    requires AllValid(ts) && AllPortable(ts) && Servable(ts, m)
    requires Encodable(Invoke(ts, m).1)
    ensures WellFormed(Invoke(ts, m).1)
  {
    if m.tableNum < |ts| {
      KeyListFits(ts[m.tableNum]);
    }
  }

  /** The content is missing exactly in the reply to a get of an absent key. */
  lemma ReplyLacksContentIff(ts: seq<Layout>, m: Message)
    requires AllValid(ts) && Servable(ts, m)
    ensures !Encodable(Invoke(ts, m).1) <==>
      && m.tableNum < |ts| && m.opcode == OC_GET && m.content.KeyText? && m.content.text != ALL_KEYS
      && m.content.text !in Contents(ts[m.tableNum])
  {
    if m.tableNum < |ts| && m.opcode == OC_GET && m.content.KeyText? {
      GetRefines(ts[m.tableNum], m.content.text);
    }
  }

  /** The message `rtables_put` or `rtables_update` builds from a request that succeeded. */
  function ForwardOf(m: Message): Message
    requires m.content.Entry?
  {
    Message(if m.opcode == OC_PUT then OC_PUT else OC_UPDATE, m.tableNum, Entry(m.content.key, m.content.value))
  }

  /** Every forward of a request off the wire is decoded as that request. */
  lemma ForwardSurvivesWire(m: Message, reply: Message, rest: seq<Byte>)
    requires WellFormed(m) && Replication.Succeeded(m, reply)
    ensures ForwardOf(m) == m && Decode(Encode(ForwardOf(m)) + rest) == Got(m, rest)
  {
    RoundTripIff(m, rest);
  }

  lemma TablePutFits(l: Layout, i: Short, j: int)
    requires Valid(l) && Portable(l) && 0 <= j < |PairList(l)|
    ensures WellFormed(TablePuts(i, PairList(l))[j])
  {
    EnumerationRefines(l);
    assert PairList(l)[j].key in Contents(l);
  }

  lemma {:induction false} AllPutsFit(ts: seq<Layout>, i: nat, j: int)
    requires AllValid(ts) && AllPortable(ts) && i <= |ts| <= 0x7FFF && 0 <= j < |AllPuts(ts, i)|
    ensures WellFormed(AllPuts(ts, i)[j])
    decreases |ts| - i
  {
    var puts := TablePuts(i, PairList(ts[i]));
    if j < |puts| {
      TablePutFits(ts[i], i, j);
    } else {
      AllPutsFit(ts, i + 1, j - |puts|);
    }
  }

  /** What a transfer looks like on the wire: first the list of sizes, with opcode 60, then puts, with opcode
      40 and an entry, and last the ACK, with opcode 70 and the result 0, for the table number -1. */
  lemma TransferBytes(sizes: seq<CString>, ts: seq<Layout>, j: int)
    requires |ts| <= 0x7FFF && 0 <= j < |Transfer(sizes, ts)|
    ensures var m, last := Transfer(sizes, ts)[j], |Transfer(sizes, ts)| - 1;
      && Encodable(m)
      && (j == 0 ==> m.tableNum == -1 && Encode(m)[..4] == [0, 60, 0, 40])
      && (0 < j < last ==> Encode(m)[..4] == [0, 40, 0, 50])
      && (j == last ==> Encode(m) == [0, 70, 0, 10, 255, 255, 0, 0, 0, 0])
  {
    hide Encode, Be16, Be32;
    AllPutsArePuts(ts, 0);
    var m := Transfer(sizes, ts)[j];
    WireLayout.SmallHeader(m);
    if j == |Transfer(sizes, ts)| - 1 {
      WireLayout.AckBytes();
    }
  }

  /** Every message of a state transfer survives the wire. */
  lemma TransferSurvivesWire(sizes: seq<CString>, ts: seq<Layout>, j: int, rest: seq<Byte>)
    requires AllValid(ts) && AllPortable(ts) && SizesDescribe(sizes, ts)
    requires forall i :: 0 <= i < |sizes| ==> |sizes[i]| <= 0x7FFF
    requires 0 <= j < |Transfer(sizes, ts)|
    ensures WellFormed(Transfer(sizes, ts)[j])
    ensures Decode(Encode(Transfer(sizes, ts)[j]) + rest) == Got(Transfer(sizes, ts)[j], rest)
  {
    var m := Transfer(sizes, ts)[j];
    if 0 < j < |Transfer(sizes, ts)| - 1 {
      assert m == AllPuts(ts, 0)[j - 1];
      AllPutsFit(ts, 0, j - 1);
    }
    RoundTripIff(m, rest);
  }
}
