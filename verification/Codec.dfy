/** The wire format of `source/message.c`: what the encoder writes and what the decoder makes of any bytes. */
module Codec {
  import opened Bytes
  import opened Messages

  // ----- big-endian integers -----

  /** The low `n` bytes of `x`, in two's complement if it is negative. */
  function BigEndian(x: int, n: nat): (b: seq<Byte>)
    ensures |b| == n
    decreases if x < 0 then -x else x, n
  {
    if n == 0 then [] else BigEndian(x / 256, n - 1) + [x % 256]
  }

  /** What `htons` and `memcpy` lay out. */
  function Be16(x: int): (b: seq<Byte>)
    ensures |b| == 2
  {
    BigEndian(x, 2)
  }

  function Be32(x: int): (b: seq<Byte>)
    ensures |b| == 4
  {
    BigEndian(x, 4)
  }

  /** The number that goes on behind `high` with the digits `b`. */
  function FromDigits(high: int, b: seq<Byte>): int
    decreases |b|
  {
    if b == [] then high else FromDigits(high * 256 + b[0], b[1..])
  }

  lemma Digits16(b: seq<Byte>)
    requires |b| >= 2
    ensures FromDigits(0, b[..2]) == b[0] * 256 + (b[1] as int)
  {
    var c: int := b[0];
    assert b[..2][1..] == [b[1]] && [b[1]][1..] == [];
    assert FromDigits(0, b[..2]) == FromDigits(c, [b[1]]) == FromDigits(c * 256 + b[1], []);
  }

  lemma Digits32(b: seq<Byte>)
    requires |b| >= 4
    ensures var d0: int, d1: int, d2: int, d3: int := b[0], b[1], b[2], b[3];
      FromDigits(0, b[..4]) == ((d0 * 256 + d1) * 256 + d2) * 256 + d3
  {
    var d0: int, d1: int, d2: int, d3: int := b[0], b[1], b[2], b[3];
    assert b[..4][1..] == [b[1], b[2], b[3]] && [b[1], b[2], b[3]][1..] == [b[2], b[3]];
    assert [b[2], b[3]][1..] == [b[3]] && [b[3]][1..] == [];
    assert FromDigits(0, b[..4]) == FromDigits(d0, [b[1], b[2], b[3]]) == FromDigits(d0 * 256 + d1, [b[2], b[3]]);
    assert FromDigits(d0 * 256 + d1, [b[2], b[3]]) == FromDigits((d0 * 256 + d1) * 256 + d2, [b[3]]);
  }

  function U16(b: seq<Byte>): (x: int)
    requires |b| >= 2
    ensures 0 <= x < 0x1_0000
  {
    Digits16(b);
    FromDigits(0, b[..2])
  }

  function U32(b: seq<Byte>): (x: int)
    requires |b| >= 4
    ensures 0 <= x < 0x1_0000_0000
  {
    Digits32(b);
    FromDigits(0, b[..4])
  }

  function S16(b: seq<Byte>): Short
    requires |b| >= 2
  {
    if U16(b) < 0x8000 then U16(b) else U16(b) - 0x1_0000
  }

  function S32(b: seq<Byte>): Int32
    requires |b| >= 4
  {
    if U32(b) < 0x8000_0000 then U32(b) else U32(b) - 0x1_0000_0000
  }

  // ----- encoding -----

  /** The content as it stands on the wire, where keys are runs of bytes. */
  datatype Raw =
    | RawNone
    | RawResult(result: Int32)
    | RawValue(data: Data)
    | RawKey(key: seq<Byte>)
    | RawKeys(keys: seq<seq<Byte>>)
    | RawEntry(key: seq<Byte>, value: Data)

  function Bare(c: Content): Raw
    requires c.Value? ==> c.data.Some?
  {
    match c
    case NoContent => RawNone
    case Result(x) => RawResult(x)
    case Value(d) => RawValue(d.value)
    case KeyText(k) => RawKey(k)
    case KeyTexts(ks) => RawKeys(ks)
    case Entry(k, d) => RawEntry(k, d)
  }

  function EncodeKey(k: seq<Byte>): seq<Byte> {
    Be16(|k|) + k
  }

  function EncodeKeys(ks: seq<seq<Byte>>): seq<Byte> {
    if ks == [] then [] else EncodeKey(ks[0]) + EncodeKeys(ks[1..])
  }

  function EncodeData(d: Data): seq<Byte> {
    Be32(|d|) + d
  }

  function EncodeRaw(r: Raw): seq<Byte> {
    match r
    case RawNone => []
    case RawResult(x) => Be32(x)
    case RawValue(d) => EncodeData(d)
    case RawKey(k) => EncodeKey(k)
    case RawKeys(ks) => Be32(|ks|) + EncodeKeys(ks)
    case RawEntry(k, d) => EncodeKey(k) + EncodeData(d)
  }

  function EncodeContent(c: Content): seq<Byte>
    requires c.Value? ==> c.data.Some?
  {
    EncodeRaw(Bare(c))
  }

  function Header(m: Message): (b: seq<Byte>)
    ensures |b| == 6
  {
    Be16(m.opcode) + Be16(ContentType(m.content)) + Be16(m.tableNum)
  }

  /** The bytes of a message. */
  function Encode(m: Message): seq<Byte>
    requires Encodable(m)
  {
    Header(m) + EncodeContent(m.content)
  }

  // ----- decoding -----

  /** Got leaves the bytes not consumed. Rejected is the decoder's NULL. Overrun means it touches memory
      that is not its own: it never compares a length with the bytes it was given, and it frees the
      content of a message with a bad opcode, of which nothing was set yet. */
  datatype Parse<+T> = Got(value: T, rest: seq<Byte>) | Rejected | Overrun

  /** The next `n` bytes. */
  function ReadBytes(b: seq<Byte>, n: nat): Parse<seq<Byte>> {
    if |b| < n then Overrun else Got(b[..n], b[n..])
  }

  /** A key behind a signed 16-bit length. `malloc` refuses the huge size a negative length turns
      into, except for -1, where it gets 0 and the copy runs off. */
  function ReadKey(b: seq<Byte>): Parse<seq<Byte>> {
    if |b| < 2 then Overrun
    else if S16(b) < -1 then Rejected
    else if S16(b) == -1 then Overrun
    else ReadBytes(b[2..], S16(b))
  }

  function ReadKeys(b: seq<Byte>, n: nat): Parse<seq<seq<Byte>>>
    decreases n
  {
    if n == 0 then Got([], b)
    else
      match ReadKey(b)
      case Got(k, b1) => (
        match ReadKeys(b1, n - 1)
        case Got(ks, b2) => Got([k] + ks, b2)
        case Rejected => Rejected
        case Overrun => Overrun)
      case Rejected => Rejected
      case Overrun => Overrun
  }

  /** A `data_t` behind its size; `data_create` makes none that is empty. */
  function ReadData(b: seq<Byte>): Parse<Data> {
    if |b| < 4 then Overrun
    else if S32(b) <= 0 then Rejected
    else if |b| - 4 < S32(b) then Overrun
    else Got(b[4..4 + S32(b)], b[4 + S32(b)..])
  }

  function ReadResult(b: seq<Byte>): Parse<Raw> {
    if |b| < 4 then Overrun else Got(RawResult(S32(b)), b[4..])
  }

  function ReadValue(b: seq<Byte>): Parse<Raw> {
    match ReadData(b)
    case Got(d, b1) => Got(RawValue(d), b1)
    case Rejected => Rejected
    case Overrun => Overrun
  }

  /** The length of a lone key is read as unsigned. */
  function ReadText(b: seq<Byte>): Parse<Raw> {
    if |b| < 2 then Overrun
    else
      match ReadBytes(b[2..], U16(b))
      case Got(k, b1) => Got(RawKey(k), b1)
      case Rejected => Rejected
      case Overrun => Overrun
  }

  /** A negative number of keys meets `malloc` as a negative length does. */
  function ReadTexts(b: seq<Byte>): Parse<Raw> {
    if |b| < 4 then Overrun
    else if S32(b) < -1 then Rejected
    else if S32(b) == -1 then Overrun
    else
      match ReadKeys(b[4..], S32(b))
      case Got(ks, b1) => Got(RawKeys(ks), b1)
      case Rejected => Rejected
      case Overrun => Overrun
  }

  function ReadEntry(b: seq<Byte>): Parse<Raw> {
    match ReadKey(b)
    case Got(k, b1) => (
      match ReadData(b1)
      case Got(d, b2) => Got(RawEntry(k, d), b2)
      case Rejected => Rejected
      case Overrun => Overrun)
    case Rejected => Rejected
    case Overrun => Overrun
  }

  function ReadContent(b: seq<Byte>, ctype: int): Parse<Raw> {
    if ctype == CT_NONE then Got(RawNone, b)
    else if ctype == CT_RESULT then ReadResult(b)
    else if ctype == CT_KEY then ReadText(b)
    else if ctype == CT_KEYS then ReadTexts(b)
    else if ctype == CT_VALUE then ReadValue(b)
    else if ctype == CT_ENTRY then ReadEntry(b)
    else Rejected
  }

  /** The string a C program sees in these bytes: up to the first NUL. */
  function AsCString(s: seq<Byte>): (t: CString)
    ensures NulFree(s) ==> t == s
    ensures |t| <= |s| && (|t| == |s| ==> t == s)
  {
    if s == [] || s[0] == 0 then [] else [s[0]] + AsCString(s[1..])
  }

  function AsCStrings(ks: seq<seq<Byte>>): (ts: seq<CString>)
    ensures |ts| == |ks| && forall i :: 0 <= i < |ks| ==> ts[i] == AsCString(ks[i])
  {
    if ks == [] then [] else [AsCString(ks[0])] + AsCStrings(ks[1..])
  }

  function Cook(r: Raw): Content {
    match r
    case RawNone => NoContent
    case RawResult(x) => Result(x)
    case RawValue(d) => Value(Some(d))
    case RawKey(k) => KeyText(AsCString(k))
    case RawKeys(ks) => KeyTexts(AsCStrings(ks))
    case RawEntry(k, d) => Entry(AsCString(k), d)
  }

  /** The content types whose content `free_message` frees. */
  predicate Freed(ctype: int) {
    ctype == CT_VALUE || ctype == CT_KEY || ctype == CT_KEYS || ctype == CT_ENTRY
  }

  /** The content field of a buffer with an acceptable header. */
  function ParseRaw(b: seq<Byte>): Parse<Raw> {
    if |b| < 6 then Overrun
    else if !OpcodeAccepted(S16(b)) then if Freed(S16(b[2..])) then Overrun else Rejected
    else ReadContent(b[6..], S16(b[2..]))
  }

  /** `buffer_to_message` */
  function Decode(b: seq<Byte>): Parse<Message> {
    match ParseRaw(b)
    case Got(r, rest) => Got(Message(S16(b), S16(b[4..]), Cook(r)), rest)
    case Rejected => Rejected
    case Overrun => Overrun
  }

  /** No key field of the content has a NUL byte. */
  predicate KeysNulFree(r: Raw) {
    match r
    case RawKey(k) => NulFree(k)
    case RawKeys(ks) => forall i :: 0 <= i < |ks| ==> NulFree(ks[i])
    case RawEntry(k, _) => NulFree(k)
    case _ => true
  }
}
