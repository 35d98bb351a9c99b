/** Which buffers the decoder accepts, and with which it touches memory that is not its own; and inputs at
    which the wire format falls short of what it promises. */
module CodecVerdicts {
  import opened Bytes
  import opened Messages
  import opened Codec
  import opened CodecProofs

  function Fields(opcode: Short, ctype: Short, tableNum: Short): (b: seq<Byte>)
    ensures |b| == 6
  {
    Be16(opcode) + Be16(ctype) + Be16(tableNum)
  }

  function RawMessage(opcode: Short, tableNum: Short, r: Raw): seq<Byte> {
    Fields(opcode, RawType(r), tableNum) + EncodeRaw(r)
  }

  // ----- what is accepted -----

  lemma FieldsBack(opcode: Short, ctype: Short, tableNum: Short, b6: seq<Byte>)
    ensures var b := Fields(opcode, ctype, tableNum) + b6;
      |b| >= 6 && S16(b) == opcode && S16(b[2..]) == ctype && S16(b[4..]) == tableNum && b[6..] == b6
  {
    hide S16;
    var b := Fields(opcode, ctype, tableNum) + b6;
    var b4 := Be16(tableNum) + b6;
    var b2 := Be16(ctype) + b4;
    assert b == Be16(opcode) + b2;
    assert b[2..] == b2 && b[4..] == b4;
    Short16(opcode, b2);
    Short16(ctype, b4);
    Short16(tableNum, b6);
  }

  lemma FieldsRead(b: seq<Byte>)
    requires |b| >= 6
    ensures b == Fields(S16(b), S16(b[2..]), S16(b[4..])) + b[6..]
  {
    Be16Back(b);
    Be16Back(b[2..]);
    Be16Back(b[4..]);
    assert b[..6] == b[..2] + b[2..][..2] + b[4..][..2];
    assert b == b[..6] + b[6..];
  }

  lemma RawMessageBack(opcode: Short, tableNum: Short, r: Raw, rest: seq<Byte>)
    requires RawFits(r) && OpcodeAccepted(opcode)
    ensures var b := RawMessage(opcode, tableNum, r) + rest;
      |b| >= 6 && S16(b) == opcode && S16(b[4..]) == tableNum && ParseRaw(b) == Got(r, rest)
  {
    hide ReadContent, EncodeRaw, Fields, RawFits;
    Assoc(Fields(opcode, RawType(r), tableNum), EncodeRaw(r), rest);
    FieldsBack(opcode, RawType(r), tableNum, EncodeRaw(r) + rest);
    ReadRawBack(r, rest);
  }

  lemma ReadContentFits(b: seq<Byte>, ctype: int)
    requires ReadContent(b, ctype).Got?
    ensures RawFits(ReadContent(b, ctype).value)
  {
    if ctype == CT_KEYS {
      ReadKeysCanon(b[4..], S32(b));
    } else if ctype == CT_ENTRY {
      ReadKeyCanon(b);
    }
  }

  ghost predicate StartsWith(b: seq<Byte>, opcode: Short, tableNum: Short, r: Raw, rest: seq<Byte>) {
    (10 <= opcode <= 91 || opcode == 99) && RawFits(r) && b == RawMessage(opcode, tableNum, r) + rest
  }

  lemma AcceptedStarts(b: seq<Byte>)
    requires Decode(b).Got?
    ensures StartsWith(b, S16(b), S16(b[4..]), ParseRaw(b).value, ParseRaw(b).rest)
  {
    hide ReadContent, EncodeRaw, Fields, RawFits;
    ReadContentCanon(b[6..], S16(b[2..]));
    ReadContentFits(b[6..], S16(b[2..]));
    FieldsRead(b);
    var Got(r, rest) := ParseRaw(b);
    Assoc(Fields(S16(b), RawType(r), S16(b[4..])), EncodeRaw(r), rest);
  }

  /** The decoder accepts exactly the buffers that start with the encoding of a message with an
      acceptable opcode and lengths that fit their fields, whatever bytes its keys have. */
  lemma AcceptedIff(b: seq<Byte>)
    ensures Decode(b).Got? <==>
      exists opcode: Short, tableNum: Short, r: Raw, rest: seq<Byte> :: StartsWith(b, opcode, tableNum, r, rest)
  {
    hide ParseRaw, RawMessage, RawFits;
    if Decode(b).Got? {
      AcceptedStarts(b);
    }
    if opcode: Short, tableNum: Short, r: Raw, rest: seq<Byte> :| StartsWith(b, opcode, tableNum, r, rest) {
      RawMessageBack(opcode, tableNum, r, rest);
    }
  }

  // ----- overruns -----

  /** A key whose length or bytes are not all there, or whose length is -1. */
  predicate KeyOverruns(b: seq<Byte>) {
    |b| < 2 || S16(b) == -1 || |b| < 2 + S16(b)
  }

  predicate DataOverruns(b: seq<Byte>) {
    |b| < 4 || |b| < 4 + S32(b)
  }

  /** Some of the `n` keys, but not all, are there, and the one behind them overruns. */
  ghost predicate KeysOverrun(b: seq<Byte>, n: int) {
    exists ks: seq<seq<Byte>>, r: seq<Byte> :: KeysBreakAt(b, n, ks, r)
  }

  ghost predicate KeysBreakAt(b: seq<Byte>, n: int, ks: seq<seq<Byte>>, r: seq<Byte>) {
    |ks| < n && ShortKeys(ks) && b == EncodeKeys(ks) + r && KeyOverruns(r)
  }

  ghost predicate EntryOverruns(b: seq<Byte>) {
    KeyOverruns(b) || exists k: seq<Byte>, r: seq<Byte> :: EntryBreaksAt(b, k, r)
  }

  ghost predicate EntryBreaksAt(b: seq<Byte>, k: seq<Byte>, r: seq<Byte>) {
    |k| <= 0x7FFF && b == EncodeKey(k) + r && DataOverruns(r)
  }

  ghost predicate ContentOverruns(b: seq<Byte>, ctype: int) {
    || (ctype == CT_RESULT && |b| < 4)
    || (ctype == CT_KEY && (|b| < 2 || |b| < 2 + U16(b)))
    || (ctype == CT_VALUE && DataOverruns(b))
    || (ctype == CT_KEYS && (|b| < 4 || S32(b) == -1 || (S32(b) >= 0 && KeysOverrun(b[4..], S32(b)))))
    || (ctype == CT_ENTRY && EntryOverruns(b))
  }

  lemma BreaksFirst(b: seq<Byte>, n: nat)
    requires n > 0 && KeyOverruns(b)
    ensures ReadKeys(b, n).Overrun? && KeysOverrun(b, n)
  {
    assert EncodeKeys([]) + b == b;
    assert KeysBreakAt(b, n, [], b);
  }

  lemma BreaksLater(k: seq<Byte>, b: seq<Byte>, n: nat)
    requires |k| <= 0x7FFF && KeysOverrun(b, n)
    ensures KeysOverrun(EncodeKey(k) + b, n + 1)
  {
    var ks, r :| KeysBreakAt(b, n, ks, r);
    EncodeKeysCons(k, ks, r);
    assert KeysBreakAt(EncodeKey(k) + b, n + 1, [k] + ks, r);
  }

  /** Keys that break, but not at the first, break behind it. */
  lemma BreaksBehind(b: seq<Byte>, n: nat)
    requires n > 0 && KeysOverrun(b, n) && !KeyOverruns(b)
    ensures ReadKey(b).Got? && KeysOverrun(ReadKey(b).rest, n - 1)
  {
    var ks, r :| KeysBreakAt(b, n, ks, r);
    assert EncodeKeys([]) + r == r;
    if ks != [] {
      var b1 := EncodeKeys(ks[1..]) + r;
      EncodeKeysFirst(ks, r);
      ReadKeyBack(ks[0], b1);
      assert KeysBreakAt(b1, n - 1, ks[1..], r);
    }
  }

  lemma {:induction false} KeysOverrunIff(b: seq<Byte>, n: nat)
    ensures ReadKeys(b, n).Overrun? <==> KeysOverrun(b, n)
    decreases n
  {
    hide EncodeKey, KeysOverrun;
    if n == 0 {
      NoKeysNoOverrun(b);
    } else if KeyOverruns(b) {
      BreaksFirst(b, n);
    } else if ReadKey(b).Got? {
      var Got(k, b1) := ReadKey(b);
      ReadKeyCanon(b);
      KeysOverrunIff(b1, n - 1);
      if KeysOverrun(b1, n - 1) {
        BreaksLater(k, b1, n - 1);
      }
      if KeysOverrun(b, n) {
        BreaksBehind(b, n);
      }
    } else if KeysOverrun(b, n) {
      BreaksBehind(b, n);
    }
  }

  lemma NoKeysNoOverrun(b: seq<Byte>)
    ensures !KeysOverrun(b, 0)
  {
  }

  lemma EntryOverrunsIff(b: seq<Byte>)
    ensures ReadEntry(b).Overrun? <==> EntryOverruns(b)
  {
    hide EncodeKey;
    if ReadKey(b).Got? {
      var Got(k, r) := ReadKey(b);
      ReadKeyCanon(b);
      assert DataOverruns(r) ==> EntryBreaksAt(b, k, r);
    }
    if k, r :| EntryBreaksAt(b, k, r) {
      ReadKeyBack(k, r);
    }
  }

  /** The decoder touches memory that is not its own exactly when the header is not all there, when the
      opcode is bad and the content type one whose content gets freed, or when the opcode is acceptable
      and some length or run of bytes of the content is not all there or is announced as -1. */
  lemma OverrunIff(b: seq<Byte>)
    ensures Decode(b).Overrun? <==>
      || |b| < 6
      || (if 10 <= S16(b) <= 91 || S16(b) == 99 then ContentOverruns(b[6..], S16(b[2..]))
          else S16(b[2..]) in {20, 30, 40, 50})
  {
    hide ReadEntry, ReadKeys, EntryOverruns, KeysOverrun;
    if |b| >= 6 {
      EntryOverrunsIff(b[6..]);
      if |b| >= 10 && S32(b[6..]) >= 0 {
        KeysOverrunIff(b[6..][4..], S32(b[6..]));
      }
    }
  }

  // ----- inputs at which the format falls short -----

  lemma LongKeyRejected(k: seq<Byte>, after: seq<Byte>)
    requires |k| == 0x8000
    ensures ReadKey(EncodeKey(k) + after).Rejected?
  {
    Assoc(Be16(0x8000), k, after);
    assert S16(Be16(0x8000) + (k + after)) == -0x8000;
  }

  /** A key of 32768 bytes survives alone, but as the key of an entry its length reads as negative. */
  lemma LongKeyLost(opcode: Short, tableNum: Short, k: CString, d: Data)
    requires OpcodeAccepted(opcode) && |k| == 0x8000
    ensures var lone, entry := Message(opcode, tableNum, KeyText(k)), Message(opcode, tableNum, Entry(k, d));
      Decode(Encode(lone)) == Got(lone, []) && Decode(Encode(entry)).Rejected?
  {
    hide ReadKey, EncodeKey, EncodeData, Header;
    var lone, entry := Message(opcode, tableNum, KeyText(k)), Message(opcode, tableNum, Entry(k, d));
    RoundTripIff(lone, []);
    assert Encode(lone) + [] == Encode(lone);
    HeaderBack(entry, EncodeContent(entry.content));
    LongKeyRejected(k, EncodeData(d));
  }

  /** Two keys that differ behind a NUL are decoded alike, and encoding gives neither back. */
  lemma NulCutsKey(tableNum: Short)
    ensures var b := RawMessage(OC_GET, tableNum, RawKey([65, 0, 66]));
      && Decode(b) == Got(Message(OC_GET, tableNum, KeyText([65])), [])
      && Encode(Decode(b).value) != b
  {
    var r := RawKey([65, 0, 66]);
    var b := RawMessage(OC_GET, tableNum, r);
    assert b + [] == b;
    RawMessageBack(OC_GET, tableNum, r, []);
    var key: seq<Byte> := [65, 0, 66];
    assert key[1..][0] == 0;
    assert AsCString(key) == [65] + AsCString(key[1..]) == [65];
    CanonicalIff(b);
  }
}
