/** The encoding against the format documented in `include/message.h`: which bytes stand where, with the
    most significant byte of a number first, and negative numbers in two's complement. */
module WireLayout {
  import opened Bytes
  import opened Messages
  import opened Codec
  import CodecProofs

  /** The number written in base 256. */
  function Number(b: seq<Byte>): int {
    if b == [] then 0 else Number(b[..|b| - 1]) * 256 + b[|b| - 1]
  }

  lemma NumberSnoc(b: seq<Byte>, x: Byte)
    ensures Number(b + [x]) == Number(b) * 256 + x
  {
    assert (b + [x])[..|b|] == b;
  }

  lemma Number2(x: int)
    ensures Number(Be16(x)) == x % 0x1_0000
  {
    var b := Be16(x);
    CodecProofs.Bytes16(x);
    NumberSnoc([], b[0]);
    NumberSnoc([b[0]], b[1]);
    assert b == [] + [b[0]] + [b[1]];
    assert x / 256 / 256 == x / 0x1_0000;
  }

  lemma Number4(x: int)
    ensures Number(Be32(x)) == x % 0x1_0000_0000
  {
    var b := Be32(x);
    CodecProofs.Bytes32(x);
    NumberSnoc([], b[0]);
    NumberSnoc([b[0]], b[1]);
    NumberSnoc([b[0], b[1]], b[2]);
    NumberSnoc([b[0], b[1], b[2]], b[3]);
    assert b == [] + [b[0]] + [b[1]] + [b[2]] + [b[3]];
    CodecProofs.FourDigits(x);
  }

  /** `b` is a number of two or four bytes, a negative one in two's complement. */
  predicate Holds(b: seq<Byte>, x: int) {
    (|b| == 2 && Number(b) == x % 0x1_0000) || (|b| == 4 && Number(b) == x % 0x1_0000_0000)
  }

  /** The number `x` in two bytes, then `s`. */
  predicate Counted2(b: seq<Byte>, x: int, s: seq<Byte>) {
    |b| == 2 + |s| && Holds(b[..2], x) && b[2..] == s
  }

  predicate Counted4(b: seq<Byte>, x: int, s: seq<Byte>) {
    |b| == 4 + |s| && Holds(b[..4], x) && b[4..] == s
  }

  lemma KeyCounted(k: seq<Byte>)
    ensures Counted2(EncodeKey(k), |k|, k)
  {
    Number2(|k|);
    assert EncodeKey(k)[..2] == Be16(|k|);
  }

  lemma DataCounted(d: Data)
    ensures Counted4(EncodeData(d), |d|, d)
  {
    Number4(|d|);
    assert EncodeData(d)[..4] == Be32(|d|);
  }

  /** OPCODE, C_TYPE and TABLE_NUM in two bytes each. Then for CT_ENTRY KEYSIZE in two bytes, KEY, DATASIZE in
      four bytes and DATA; for CT_KEY KEYSIZE and KEY; for CT_VALUE DATASIZE and DATA; for CT_RESULT four
      bytes. And nothing more. */
  lemma MessageLayout(m: Message)
    requires Encodable(m)
    ensures var e := Encode(m);
      && |e| >= 6 && Holds(e[0..2], m.opcode) && Holds(e[2..4], ContentType(m.content)) && Holds(e[4..6], m.tableNum)
      && match m.content
         case NoContent => |e| == 6
         case Result(x) => |e| == 10 && Holds(e[6..10], x)
         case KeyText(k) => Counted2(e[6..], |k|, k)
         case Value(d) => Counted4(e[6..], |d.value|, d.value)
         case Entry(k, d) =>
           |e| >= 8 + |k| && Counted2(e[6..8 + |k|], |k|, k) && Counted4(e[8 + |k|..], |d|, d)
         case KeyTexts(ks) => |e| >= 10 && Holds(e[6..10], |ks|)
  {
    hide Number, EncodeKey, EncodeData, Counted2, Counted4, Be32;
    HeaderHolds(m);
    var e := Encode(m);
    assert e[6..] == EncodeContent(m.content);
    match m.content
    case NoContent =>
    case Result(x) =>
      Number4(x);
      assert e[6..10] == Be32(x);
    case KeyText(k) => KeyCounted(k);
    case Value(d) => DataCounted(d.value);
    case Entry(k, d) => EntryCounted(e, k, d);
    case KeyTexts(ks) =>
      Number4(|ks|);
      assert e[6..10] == Be32(|ks|);
  }

  lemma HeaderHolds(m: Message)
    requires Encodable(m)
    ensures var e := Encode(m);
      |e| >= 6 && Holds(e[0..2], m.opcode) && Holds(e[2..4], ContentType(m.content)) && Holds(e[4..6], m.tableNum)
  {
    var e := Encode(m);
    assert e[0..2] == Be16(m.opcode) && e[2..4] == Be16(ContentType(m.content)) && e[4..6] == Be16(m.tableNum);
    Number2(m.opcode);
    Number2(ContentType(m.content));
    Number2(m.tableNum);
  }

  lemma SmallBe16(x: int)
    requires 0 <= x < 256
    ensures Be16(x) == [0, x as Byte]
  {
    assert BigEndian(x, 2) == BigEndian(x / 256, 1) + [x % 256];
    assert BigEndian(x / 256, 1) == BigEndian(x / 256 / 256, 0) + [x / 256 % 256];
  }

  lemma SmallHeader(m: Message)
    requires Encodable(m) && 0 <= m.opcode < 256
    ensures Encode(m)[..4] == [0, m.opcode as Byte, 0, ContentType(m.content) as Byte]
  {
    hide BigEndian;
    SmallBe16(m.opcode);
    SmallBe16(ContentType(m.content));
    assert Encode(m)[..4] == Be16(m.opcode) + Be16(ContentType(m.content));
  }

  /** The first four bytes of every kind of request and of every message between servers, for any table
      number and content. */
  lemma RequestHeaders(n: Short, k: CString, ks: seq<CString>, d: Data, x: Int32)
    ensures Encode(Message(OC_SIZE, n, NoContent))[..4] == [0, 10, 0, 0]
    ensures Encode(Message(OC_UPDATE, n, Entry(k, d)))[..4] == [0, 20, 0, 50]
    ensures Encode(Message(OC_GET, n, KeyText(k)))[..4] == [0, 30, 0, 30]
    ensures Encode(Message(OC_PUT, n, Entry(k, d)))[..4] == [0, 40, 0, 50]
    ensures Encode(Message(OC_COLLS, n, NoContent))[..4] == [0, 50, 0, 0]
    ensures Encode(Message(OC_SZ_TABLES, n, KeyTexts(ks)))[..4] == [0, 60, 0, 40]
    ensures Encode(Message(OC_ACK, n, Result(x)))[..4] == [0, 70, 0, 10]
    ensures Encode(Message(OC_IP_PORT, n, KeyText(k)))[..4] == [0, 80, 0, 30]
    ensures Encode(Message(OC_HELLO, n, Result(x)))[..4] == [0, 90, 0, 10]
  {
    hide Encode;
    SmallHeader(Message(OC_SIZE, n, NoContent));
    SmallHeader(Message(OC_UPDATE, n, Entry(k, d)));
    SmallHeader(Message(OC_GET, n, KeyText(k)));
    SmallHeader(Message(OC_PUT, n, Entry(k, d)));
    SmallHeader(Message(OC_COLLS, n, NoContent));
    SmallHeader(Message(OC_SZ_TABLES, n, KeyTexts(ks)));
    SmallHeader(Message(OC_ACK, n, Result(x)));
    SmallHeader(Message(OC_IP_PORT, n, KeyText(k)));
    SmallHeader(Message(OC_HELLO, n, Result(x)));
  }

  /** The same for the replies to requests, and all bytes of the error reply. */
  lemma ReplyHeaders(n: Short, ks: seq<CString>, d: Data, x: Int32)
    ensures Encode(Message(OC_SIZE + 1, n, Result(x)))[..4] == [0, 11, 0, 10]
    ensures Encode(Message(OC_UPDATE + 1, n, Result(x)))[..4] == [0, 21, 0, 10]
    ensures Encode(Message(OC_GET + 1, n, Value(Some(d))))[..4] == [0, 31, 0, 20]
    ensures Encode(Message(OC_GET + 1, n, KeyTexts(ks)))[..4] == [0, 31, 0, 40]
    ensures Encode(Message(OC_PUT + 1, n, Result(x)))[..4] == [0, 41, 0, 10]
    ensures Encode(Message(OC_COLLS + 1, n, Result(x)))[..4] == [0, 51, 0, 10]
    ensures Encode(ERROR_REPLY) == [0, 99, 0, 10, 0, 0, 255, 255, 255, 255]
  {
    hide Encode;
    SmallHeader(Message(OC_SIZE + 1, n, Result(x)));
    SmallHeader(Message(OC_UPDATE + 1, n, Result(x)));
    SmallHeader(Message(OC_GET + 1, n, Value(Some(d))));
    SmallHeader(Message(OC_GET + 1, n, KeyTexts(ks)));
    SmallHeader(Message(OC_PUT + 1, n, Result(x)));
    SmallHeader(Message(OC_COLLS + 1, n, Result(x)));
    ErrorBytes();
  }

  lemma ErrorBytes()
    ensures Encode(ERROR_REPLY) == [0, 99, 0, 10, 0, 0, 255, 255, 255, 255]
  {
    SmallHeader(ERROR_REPLY);
    SmallBe16(0);
    LowBytes(-1, 4);
    LowBytes(-1, 3);
    LowBytes(-1, 2);
    LowBytes(-1, 1);
    assert Encode(ERROR_REPLY) == Encode(ERROR_REPLY)[..4] + (Be16(0) + Be32(-1));
  }

  lemma AckBytes()
    ensures Encode(Message(OC_ACK, -1, Result(0))) == [0, 70, 0, 10, 255, 255, 0, 0, 0, 0]
  {
    var ack := Message(OC_ACK, -1, Result(0));
    SmallHeader(ack);
    LowBytes(-1, 2);
    LowBytes(-1, 1);
    LowBytes(0, 4);
    LowBytes(0, 3);
    LowBytes(0, 2);
    LowBytes(0, 1);
    assert Encode(ack) == Encode(ack)[..4] + (Be16(-1) + Be32(0));
  }

  lemma LowBytes(x: int, n: nat)
    requires x in {-1, 0} && n > 0
    ensures BigEndian(x, n) == BigEndian(x, n - 1) + [if x < 0 then 255 else 0]
  {
    assert -1 / 256 == -1 && -1 % 256 == 255;
  }

  /** The decoder takes the opcodes of all requests, of all messages between servers and of the replies to
      any of them, and the error. */
  lemma AllKindsAccepted(m: Message, rest: seq<Byte>)
    requires m.opcode in {10, 11, 20, 21, 30, 31, 40, 41, 50, 51, 60, 61, 70, 71, 80, 81, 90, 91, 99}
    requires Encodable(m) && FieldsFit(m.content)
    ensures Decode(Encode(m) + rest) == Got(m, rest)
  {
    CodecProofs.RoundTripIff(m, rest);
  }

  lemma EntryCounted(e: seq<Byte>, k: seq<Byte>, d: Data)
    requires |e| >= 6 && e[6..] == EncodeKey(k) + EncodeData(d)
    ensures |e| >= 8 + |k| && Counted2(e[6..8 + |k|], |k|, k) && Counted4(e[8 + |k|..], |d|, d)
  {
    KeyCounted(k);
    DataCounted(d);
    assert e[6..8 + |k|] == e[6..][..2 + |k|] == EncodeKey(k);
    assert e[8 + |k|..] == e[6..][2 + |k|..] == EncodeData(d);
  }

  /** Where the length of key `i` of a list stands, counted from the first of them. */
  function KeyOffset(ks: seq<seq<Byte>>, i: nat): int
    requires i <= |ks|
  {
    if i == 0 then 0 else KeyOffset(ks, i - 1) + 2 + |ks[i - 1]|
  }

  lemma {:induction false} KeysFrom(ks: seq<seq<Byte>>, i: nat)
    requires i <= |ks|
    ensures 0 <= KeyOffset(ks, i) <= |EncodeKeys(ks)|
    ensures EncodeKeys(ks)[KeyOffset(ks, i)..] == EncodeKeys(ks[i..])
  {
    if i == 0 {
      assert ks[0..] == ks;
    } else {
      KeysFrom(ks, i - 1);
      var at, e := KeyOffset(ks, i - 1), EncodeKeys(ks);
      assert ks[i - 1..][1..] == ks[i..];
      assert e[at..] == EncodeKey(ks[i - 1]) + EncodeKeys(ks[i..]);
      assert e[at + 2 + |ks[i - 1]|..] == e[at..][2 + |ks[i - 1]|..];
    }
  }

  lemma StartsAt(e: seq<Byte>, at: nat, piece: seq<Byte>, rest: seq<Byte>)
    requires at <= |e| && e[at..] == piece + rest
    ensures at + |piece| <= |e| && e[at..at + |piece|] == piece
  {
    assert |e[at..]| == |piece| + |rest|;
    assert e[at..at + |piece|] == e[at..][..|piece|];
  }

  lemma KeyAt(ks: seq<seq<Byte>>, i: nat)
    requires i < |ks|
    ensures var at, e := KeyOffset(ks, i), EncodeKeys(ks);
      0 <= at && at + 2 + |ks[i]| <= |e| && Counted2(e[at..at + 2 + |ks[i]|], |ks[i]|, ks[i])
  {
    hide Counted2, KeyOffset;
    KeysFrom(ks, i);
    KeyCounted(ks[i]);
    assert EncodeKeys(ks[i..]) == EncodeKey(ks[i]) + EncodeKeys(ks[i..][1..]);
    StartsAt(EncodeKeys(ks), KeyOffset(ks, i), EncodeKey(ks[i]), EncodeKeys(ks[i..][1..]));
  }

  /** CT_KEYS: behind NKEYS, for each key in turn KEYSIZE in two bytes and KEY. */
  lemma KeysLayout(m: Message, i: nat)
    requires m.content.KeyTexts? && i < |m.content.texts|
    ensures var b := Encode(m)[10..]; var ks := m.content.texts; var at := KeyOffset(ks, i);
      0 <= at && at + 2 + |ks[i]| <= |b| && Counted2(b[at..at + 2 + |ks[i]|], |ks[i]|, ks[i])
  {
    hide EncodeKeys, Be32, Counted2, KeyOffset;
    KeyAt(m.content.texts, i);
    assert Encode(m)[10..] == EncodeKeys(m.content.texts);
  }
}
