/** A server process of `source/table-server.c`: applying and forwarding a request, and bringing a
    restarted server up to date. The vector of tables is held by value here; `Skeletons.Skeleton` is
    the same vector in place. */
module Servers {
  import opened Bytes
  import opened Messages
  import opened Coalesced
  import opened Dispatch
  import opened StateTransfer
  import opened TableSizes
  import Replication

  /** What comes of a message: nothing to report, an ACK, or the NULL of refused sizes, which leaves the
      vector of tables half made. */
  datatype Handled = Plain | Acked | Refused

  predicate RefusesSizes(m: Message) {
    m.tableNum == -1 && m.opcode == OC_SZ_TABLES && m.content.KeyTexts? && !SizesAccepted(m.content.texts)
  }

  predicate IsAck(m: Message) {
    m.tableNum == -1 && m.opcode == OC_ACK
  }

  /** The messages a server knows how to answer, with the content that belongs to them. */
  predicate Known(m: Message) {
    if m.tableNum == -1 then
      || (m.opcode == OC_SZ_TABLES && m.content.KeyTexts?)
      || (m.opcode == OC_IP_PORT && m.content.KeyText?)
      || m.opcode == OC_ACK
      || m.opcode == OC_HELLO
    else 0 <= m.tableNum && Hashable(m)
  }

  /** Where the recovery loop stops: at the first ACK or refused list of sizes, or at the end. */
  function Stop(ms: seq<Message>): (k: nat)
    ensures k <= |ms|
    ensures k < |ms| ==> IsAck(ms[k]) || RefusesSizes(ms[k])
    ensures forall i :: 0 <= i < k ==> !IsAck(ms[i]) && !RefusesSizes(ms[i])
  {
    if ms == [] || IsAck(ms[0]) || RefusesSizes(ms[0]) then 0 else 1 + Stop(ms[1..])
  }

  class Server {
    var tables: seq<Layout>
    var primary: bool   // `primario`
    var peerUp: bool    // `o_server->state`

    constructor (tables: seq<Layout>, primary: bool, peerUp: bool)
      ensures this.tables == tables && this.primary == primary && this.peerUp == peerUp
    {
      this.tables, this.primary, this.peerUp := tables, primary, peerUp;
    }

    ghost predicate Valid()
      reads this
    {
      AllValid(tables)
    }

    /** One message at a server that does not forward: `invoke_server_version` for table number -1,
        `invoke` otherwise. */
    method Handle(m: Message) returns (r: Handled)
      requires Valid() && Known(m)
      modifies this`tables, this`peerUp
      ensures r == Refused <==> RefusesSizes(m)
      ensures r == Acked <==> IsAck(m)
      ensures r != Refused ==> Valid() && tables == StateTransfer.Handle(old(tables), m)
      ensures peerUp == (old(peerUp) || (m.tableNum == -1 && m.opcode == OC_HELLO))
    {
      HandleValid(tables, m);
      r := Plain;
      if m.tableNum == -1 {
        if m.opcode == OC_SZ_TABLES {
          if !SizesAccepted(m.content.texts) {
            tables := [];
            return Refused;
          }
          tables := CreateAll(m.content.texts);
        } else if m.opcode == OC_ACK {
          r := Acked;
        } else if m.opcode == OC_HELLO {
          peerUp := true;
        }
      } else {
        ValidServable(tables, m);
        var (ts, _) := Invoke(tables, m);
        tables := ts;
      }
    }

    /** One client request: apply it, pass a success on to a backup taken to be up, and only then
        answer. `backup` is the process that reads the other end, if one is alive. */
    method Serve(m: Message, backup: Server?) returns (reply: Message)
      requires Valid() && 0 <= m.tableNum && Hashable(m)
      requires backup != null ==> backup != this && backup.Valid()
      modifies this`tables, if backup == null then {} else {backup}
      ensures Valid() && (backup != null ==> backup.Valid())
      ensures backup != null ==> backup.primary == old(backup.primary) && backup.peerUp == old(backup.peerUp)
      ensures Servable(old(tables), m) && (tables, reply) == Invoke(old(tables), m)
      ensures backup != null ==>
        backup.tables == if primary && peerUp && Replication.Succeeded(m, reply)
                         then StateTransfer.Handle(old(backup.tables), m) else old(backup.tables)
    {
      hide Invoke, Effect, Answers, StateTransfer.Handle;
      InvokeRefines(tables, m);
      var (ts, r) := Invoke(tables, m);
      tables := ts;
      if primary && peerUp && r.opcode != OC_RT_ERROR {
        if (m.opcode == OC_PUT || m.opcode == OC_UPDATE) && m.content.Entry? && backup != null {
          var _ := backup.Handle(m);
        }
      }
      return r;
    }

    /** `update_state` after its HELLO: handle what arrives until the ACK. If the stream ends before, or sizes
        are refused, the result is -1 and what was handled so far stays. */
    method UpdateState(incoming: seq<Message>) returns (r: int, seen: nat)
      requires Valid() && forall i :: 0 <= i < |incoming| ==> Known(incoming[i])
      modifies this`tables, this`peerUp
      ensures var k := Stop(incoming);
        && seen == (if k < |incoming| then k + 1 else k)
        && r == (if k < |incoming| && IsAck(incoming[k]) then 0 else -1)
        && ((k < |incoming| && RefusesSizes(incoming[k]))
            || (Valid() && tables == HandleAll(old(tables), incoming[..seen])))
    {
      hide HandleAll, Stop, IsAck, RefusesSizes, StateTransfer.Handle;
      seen := 0;
      var ack := false;
      assert HandleAll(tables, incoming[..0]) == tables by { HandledNone(tables, incoming); }
      while !ack
        invariant seen <= |incoming| && Valid() && tables == HandleAll(old(tables), incoming[..seen])
        invariant ack ==> seen > 0 && IsAck(incoming[seen - 1]) && Stop(incoming) == seen - 1
        invariant !ack ==> seen <= Stop(incoming)
        decreases |incoming| - seen, !ack
      {
        if seen == |incoming| {
          return -1, seen;
        }
        HandledNext(old(tables), incoming, seen);
        var handled := Handle(incoming[seen]);
        seen := seen + 1;
        if handled == Refused {
          return -1, seen;
        }
        ack := handled == Acked;
      }
      return 0, seen;
    }

    /** The answer to a HELLO: the sizes, then table by table a put for every stored entry, and the ACK.
        The receiver ends with the same contents, whatever it held before. */
    method SendState(sizes: seq<CString>, peer: Server) returns (last: Handled)
      requires Valid() && peer.Valid() && peer != this && SizesDescribe(sizes, tables)
      modifies peer`tables, peer`peerUp
      ensures last == Acked && peer.Valid() && peer.peerUp == old(peer.peerUp)
      ensures peer.tables == HandleAll(old(peer.tables), Transfer(sizes, tables))
      ensures CapsOf(peer.tables) == CapsOf(tables) && MapsOf(peer.tables) == MapsOf(tables)
    {
      hide StateTransfer.Handle, HandleAll, SizesAccepted, AllPuts, PairList, CapsOf, MapsOf, Transfer;
      TransferPreserves(peer.tables, sizes, tables);
      TransferSteps(peer.tables, sizes, tables);
      ghost var goal := HandleAll(peer.tables, Transfer(sizes, tables));
      last := peer.Handle(SizesMessage(sizes));
      var i := 0;
      while i < |tables|
        invariant 0 <= i <= |tables| && peer.Valid() && peer.peerUp == old(peer.peerUp)
        invariant HandleAll(peer.tables, AllPuts(tables, i) + [ACK_MESSAGE]) == goal
      {
        AllPutsFirst(tables, i);
        SendPuts(i, PairList(tables[i]), peer, AllPuts(tables, i + 1) + [ACK_MESSAGE]);
        i := i + 1;
      }
      NoPutsLeft(tables);
      SingleHandle(peer.tables, ACK_MESSAGE);
      last := peer.Handle(ACK_MESSAGE);
    }

    /** The inner loop of the transfer: one put for each entry, after which `later` remains to be sent. */
    static method SendPuts(n: int, entries: seq<Pair>, peer: Server, ghost later: seq<Message>)
      requires peer.Valid() && 0 <= n <= 0x7FFF
      modifies peer`tables, peer`peerUp
      ensures peer.Valid() && peer.peerUp == old(peer.peerUp)
      ensures HandleAll(peer.tables, later) == HandleAll(old(peer.tables), TablePuts(n, entries) + later)
    {
      var j := 0;
      ghost var left := entries;
      while j < |entries|
        invariant 0 <= j <= |entries| && left == entries[j..] && peer.Valid() && peer.peerUp == old(peer.peerUp)
        invariant HandleAll(peer.tables, TablePuts(n, left) + later)
               == HandleAll(old(peer.tables), TablePuts(n, entries) + later)
      {
        PutsFirst(peer.tables, n, left, later);
        var _ := peer.Handle(PutMessage(n, entries[j]));
        left := left[1..];
        j := j + 1;
      }
      assert TablePuts(n, []) + later == later;
    }
  }

  lemma HandledNone(ts: seq<Layout>, ms: seq<Message>)
    ensures HandleAll(ts, ms[..0]) == ts
  {
  }

  lemma HandledNext(ts: seq<Layout>, ms: seq<Message>, j: int)
    requires 0 <= j < |ms|
    ensures HandleAll(ts, ms[..j + 1]) == StateTransfer.Handle(HandleAll(ts, ms[..j]), ms[j])
  {
    assert ms[..j + 1] == ms[..j] + [ms[j]];
    HandleAppend(ts, ms[..j], [ms[j]]);
    SingleHandle(HandleAll(ts, ms[..j]), ms[j]);
  }

  /** Every message of a transfer is known to its receiver; none has refused sizes, and only the last is an ACK. */
  lemma Receivable(sizes: seq<CString>, ts: seq<Layout>, j: int)
    requires AllValid(ts) && SizesDescribe(sizes, ts) && 0 <= j < |Transfer(sizes, ts)|
    ensures var m := Transfer(sizes, ts)[j];
      Known(m) && !RefusesSizes(m) && (IsAck(m) <==> j == |Transfer(sizes, ts)| - 1)
  {
    TransferSteps([], sizes, ts);
    AllPutsArePuts(ts, 0);
    if 0 < j < |Transfer(sizes, ts)| - 1 {
      assert Transfer(sizes, ts)[j] == AllPuts(ts, 0)[j - 1];
    }
  }

  /** The first `j` of `n` messages of which only the last is an ACK. */
  lemma StopsAtLast(ms: seq<Message>, n: nat)
    requires |ms| <= n && n > 0
    requires forall i :: 0 <= i < |ms| ==> !RefusesSizes(ms[i]) && (IsAck(ms[i]) <==> i == n - 1)
    ensures Stop(ms) == if |ms| == n then n - 1 else |ms|
  {
    hide Stop, IsAck, RefusesSizes;
    if |ms| == n {
      assert IsAck(ms[n - 1]);
    }
  }

  lemma TransferKnown(sizes: seq<CString>, ts: seq<Layout>)
    requires AllValid(ts) && SizesDescribe(sizes, ts)
    ensures var all := Transfer(sizes, ts);
      && |all| >= 2
      && forall i :: 0 <= i < |all| ==>
           Known(all[i]) && !RefusesSizes(all[i]) && (IsAck(all[i]) <==> i == |all| - 1)
  {
    hide Known, IsAck, RefusesSizes;
    forall i | 0 <= i < |Transfer(sizes, ts)|
      ensures var m := Transfer(sizes, ts)[i];
        Known(m) && !RefusesSizes(m) && (IsAck(m) <==> i == |Transfer(sizes, ts)| - 1)
    {
      Receivable(sizes, ts, i);
    }
  }

  /** Of a transfer that is cut behind its first `j` messages the recovery loop takes all of them; it ends with
      the ACK if and only if all 1 + stored entries + 1 messages are there, and then the receiver has the
      sender's capacities and contents. */
  lemma RecoveryIff(held: seq<Layout>, sizes: seq<CString>, sender: seq<Layout>, j: nat)
    requires AllValid(sender) && SizesDescribe(sizes, sender) && j <= |Transfer(sizes, sender)|
    ensures |Transfer(sizes, sender)| == 1 + TotalFilled(sender, 0) + 1
    ensures var got := Transfer(sizes, sender)[..j];
      && (forall i :: 0 <= i < j ==> Known(got[i]))
      && Stop(got) == (if j == |Transfer(sizes, sender)| then j - 1 else j)
      && (Stop(got) < j ==> IsAck(got[j - 1]))
    ensures var ts := HandleAll(held, Transfer(sizes, sender));
      CapsOf(ts) == CapsOf(sender) && MapsOf(ts) == MapsOf(sender)
  {
    hide HandleAll, Transfer, TotalFilled, Known, IsAck, RefusesSizes, Stop;
    TransferPreserves(held, sizes, sender);
    TransferLength(sizes, sender);
    TransferKnown(sizes, sender);
    var all := Transfer(sizes, sender);
    assert forall i :: 0 <= i < j ==> all[..j][i] == all[i];
    StopsAtLast(all[..j], |all|);
  }

  lemma AllPutsFirst(ts: seq<Layout>, i: int)
    requires 0 <= i < |ts| <= 0x7FFF
    ensures AllPuts(ts, i) + [ACK_MESSAGE] == TablePuts(i, PairList(ts[i])) + (AllPuts(ts, i + 1) + [ACK_MESSAGE])
  {
    Assoc(TablePuts(i, PairList(ts[i])), AllPuts(ts, i + 1), [ACK_MESSAGE]);
  }

  lemma NoPutsLeft(ts: seq<Layout>)
    requires |ts| <= 0x7FFF
    ensures AllPuts(ts, |ts|) + [ACK_MESSAGE] == [ACK_MESSAGE]
  {
  }

  lemma PutsFirst(ts: seq<Layout>, n: Short, ps: seq<Pair>, later: seq<Message>)
    requires ps != []
    ensures HandleAll(ts, TablePuts(n, ps) + later)
         == HandleAll(StateTransfer.Handle(ts, PutMessage(n, ps[0])), TablePuts(n, ps[1..]) + later)
  {
    assert (TablePuts(n, ps) + later)[1..] == TablePuts(n, ps[1..]) + later;
  }

  lemma TransferSteps(cur: seq<Layout>, sizes: seq<CString>, ts: seq<Layout>)
    requires AllValid(ts) && SizesDescribe(sizes, ts)
    ensures SizesAccepted(sizes)
    ensures HandleAll(StateTransfer.Handle(cur, SizesMessage(sizes)), AllPuts(ts, 0) + [ACK_MESSAGE])
         == HandleAll(cur, Transfer(sizes, ts))
  {
    hide Atoi, AllPuts;
    forall i | 0 <= i < |sizes| ensures Atoi(sizes[i]) > 0 {
      ValidInBounds(ts[i]);
    }
    assert Transfer(sizes, ts)[1..] == AllPuts(ts, 0) + [ACK_MESSAGE];
  }
}
